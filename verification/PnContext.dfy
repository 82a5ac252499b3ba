// src/api.c and rt_cyclic_linux.c: the controller object behind the API handle.
module PnContext {
  import opened Bytes
  import opened RtFrames

  const PN_OK := 0
  const PN_ERR_INVALID_PARAM := -1
  const PN_ERR_RPC_CONNECT := -10
  const PN_ERR_CYCLIC_ALREADY := -12
  const PN_ERR_BUFFER_TOO_SMALL := -14
  const PN_ERR_NOT_CONNECTED := -15
  const PN_ERR_INTERNAL := -99

  const PN_MAX_IO_LEN := 256
  const T1_LEN := 4

  datatype PnState = Idle | Discovering | DcpSet | RpcConnecting | RpcWriting | CyclicActive | Disconnecting

  // ---------- the API as a state machine ----------

  datatype Api = Api(state: PnState, rpcSock: bool, running: bool, thread: bool,
                     connected: bool, cyclicStat: bool,
                     output: bytes, outputLen: nat, input: bytes, inputLen: nat)

  // One call with what its environment answers: whether its addresses parse, the socket opens and
  // the thread starts, and what the connect sequence or the DCP exchange returns.
  datatype Call =
    | Connect(ipOk: bool, sockOk: bool, rpcRc: int, threadOk: bool)
    | Disconnect
    | WriteOutputs(data: bytes)
    | DriveSetpoint(stw1: u16, nsoll: u16)
    | ResetStats
    | Dcp(during: PnState, argsOk: bool, dcpRc: int)
    | FrameReceived(inFid: u16, frame: bytes)

  function Put(buf: bytes, d: bytes): (r: bytes)
    requires |d| <= |buf|
    ensures |r| == |buf|
  {
    d + buf[|d|..]
  }

  function Started(s: Api): Api
    requires |s.output| == PN_MAX_IO_LEN
  {
    s.(running := true, thread := true,
       outputLen := if s.outputLen == 0 then T1_LEN else s.outputLen,
       inputLen := if s.inputLen == 0 then T1_LEN else s.inputLen,
       output := Put(s.output, Telegram1(STW1_STOP, 0)))
  }

  function AfterConnect(s: Api, c: Call): (r: (Api, int))
    requires c.Connect? && |s.output| == PN_MAX_IO_LEN
  {
    if s.state == CyclicActive then (s, PN_ERR_CYCLIC_ALREADY)
    else if !c.ipOk then (s, PN_ERR_INVALID_PARAM)
    else if !c.sockOk then (s.(state := Idle, rpcSock := false), PN_ERR_RPC_CONNECT)
    else if c.rpcRc != PN_OK then (s.(state := Idle, rpcSock := false), c.rpcRc)
    else AfterSetup(s.(state := RpcWriting, rpcSock := true), c.threadOk)
  }

  // PN_Connect once the AR is set up
  function AfterSetup(s: Api, threadOk: bool): (r: (Api, int))
    requires |s.output| == PN_MAX_IO_LEN
  {
    if s.running then (s.(state := Idle, rpcSock := false), PN_ERR_CYCLIC_ALREADY)
    else
      var t := Started(s);
      if !threadOk then (t.(state := Idle, rpcSock := false, running := false, thread := s.thread), PN_ERR_INTERNAL)
      else (t.(state := CyclicActive, connected := true, cyclicStat := true), PN_OK)
  }

  function Step(s: Api, c: Call): (r: (Api, int))
    requires |s.output| == |s.input| == PN_MAX_IO_LEN && s.inputLen <= PN_MAX_IO_LEN
  {
    match c
    case Connect(_, _, _, _) => AfterConnect(s, c)
    case Disconnect =>
      if s.state != CyclicActive && s.state != Disconnecting then (s, PN_OK)
      else (s.(state := Idle, rpcSock := false, running := false, thread := if s.running then false else s.thread,
               connected := false, cyclicStat := false), PN_OK)
    case WriteOutputs(data) =>
      if s.state != CyclicActive then (s, PN_ERR_NOT_CONNECTED)
      else if |data| > PN_MAX_IO_LEN then (s, PN_ERR_BUFFER_TOO_SMALL)
      else (s.(output := Put(s.output, data), outputLen := |data|), PN_OK)
    case DriveSetpoint(a, b) =>
      if s.state != CyclicActive then (s, PN_ERR_NOT_CONNECTED)
      else (s.(output := Put(s.output, Telegram1(a, b)), outputLen := T1_LEN), PN_OK)
    case ResetStats => (s.(connected := s.state == CyclicActive, cyclicStat := s.running), PN_OK)
    case Dcp(_, argsOk, dcpRc) =>
      if !argsOk then (s, PN_ERR_INVALID_PARAM) else (s.(state := Idle), dcpRc)
    case FrameReceived(inFid, f) => (s.(input := InputReceives(s.input, s.inputLen, inFid, f)), PN_OK)
  }

  // ---------- the lifecycle invariant ----------

  ghost predicate Lifecycle(s: Api)
  {
    && (s.state == Idle || s.state == CyclicActive)
    && (s.state == CyclicActive <==> s.running)
    && (s.running <==> s.thread) && (s.running <==> s.connected) && (s.running <==> s.cyclicStat)
    && (s.running <==> s.rpcSock)
    && |s.output| == |s.input| == PN_MAX_IO_LEN
    && s.outputLen <= PN_MAX_IO_LEN && s.inputLen <= PN_MAX_IO_LEN
  }

  // Every call keeps the lifecycle, on every failure path, except a DCP call whose arguments are
  // good, which keeps it iff the cyclic exchange is not active.
  lemma LifecycleKeptIff(s: Api, c: Call)
    requires Lifecycle(s)
    ensures Lifecycle(Step(s, c).0) <==> !(c.Dcp? && c.argsOk && s.state == CyclicActive)
  {
  }

  // The run of a sequence of calls
  ghost predicate Run(states: seq<Api>, calls: seq<Call>)
  {
    && |states| == |calls| + 1
    && forall k | 0 <= k < |calls| ::
         |states[k].output| == |states[k].input| == PN_MAX_IO_LEN && states[k].inputLen <= PN_MAX_IO_LEN
         && states[k + 1] == Step(states[k], calls[k]).0
  }

  // In every single-threaded sequence of calls without a DCP exchange while active: the state is active
  // exactly when the thread runs and the statistics say connected, idle means no socket and no
  // thread, and every frame built fits its buffer.
  lemma LifecycleOverRuns(states: seq<Api>, calls: seq<Call>, k: nat, dst: Mac, src: Mac, fid: u16, iops: byte, cc: u16)
    requires Run(states, calls) && k < |states| && Lifecycle(states[0])
    requires forall j | 0 <= j < k :: calls[j].Dcp? && calls[j].argsOk ==> states[j].state != CyclicActive
    ensures Lifecycle(states[k])
    ensures var s := states[k];
            |Padded(OutputFrame(dst, src, fid, iops, s.output[..s.outputLen], cc))| <= ETH_MAX_FRAME
  {
    if k > 0 {
      LifecycleOverRuns(states, calls, k - 1, dst, src, fid, iops, cc);
      LifecycleKeptIff(states[k - 1], calls[k - 1]);
    }
  }

  // ---------- what each call does ----------

  // PN_Connect succeeds iff nothing stands in its way; then the exchange runs with the stop
  // telegram in the output buffer. A refused call changes nothing, a failed one leaves the state
  // idle without socket, and each failure has its own code.
  lemma ConnectOutcome(s: Api, ipOk: bool, sockOk: bool, rpcRc: int, threadOk: bool)
    requires Lifecycle(s)
    ensures var (t, rc) := Step(s, Connect(ipOk, sockOk, rpcRc, threadOk));
            && (rc == 0 <==> s.state != CyclicActive && ipOk && sockOk && rpcRc == 0 && threadOk)
            && (rc == 0 ==> t.state == CyclicActive && t.rpcSock && t.thread && t.connected
                            && t.outputLen == (if s.outputLen == 0 then 4 else s.outputLen)
                            && t.inputLen == (if s.inputLen == 0 then 4 else s.inputLen) && t.input == s.input
                            && t.output[..4] == [0x76, 0x04, 0, 0] && t.output[4..] == s.output[4..])
            && (s.state == CyclicActive ==> t == s && rc == -12)
            && (s.state == Idle && !ipOk ==> t == s && rc == -1)
            && (rc != 0 && s.state == Idle ==> t.state == Idle && !t.rpcSock && !t.thread && !t.connected)
            && (s.state == Idle && ipOk && !sockOk ==> rc == -10)
            && (s.state == Idle && ipOk && sockOk && rpcRc != 0 ==> rc == rpcRc)
            && (s.state == Idle && ipOk && sockOk && rpcRc == 0 && !threadOk ==> rc == -99)
  {
  }

  // Outputs are taken only while the exchange is active, and only up to 256 bytes; then exactly
  // their bytes change.
  lemma WriteOutcome(s: Api, data: bytes)
    requires Lifecycle(s)
    ensures var (t, rc) := Step(s, WriteOutputs(data));
            && (rc == 0 <==> s.state == CyclicActive && |data| <= 256)
            && (rc != 0 ==> t == s && rc == if s.state != CyclicActive then -15 else -14)
            && (rc == 0 ==> t == s.(output := t.output, outputLen := t.outputLen) && t.outputLen == |data|
                            && t.output[..|data|] == data && t.output[|data|..] == s.output[|data|..])
  {
  }

  // A setpoint is one whole telegram: both words in Intel order in the first four bytes.
  lemma SetpointOutcome(s: Api, stw1: u16, nsoll: u16)
    requires Lifecycle(s)
    ensures var (t, rc) := Step(s, DriveSetpoint(stw1, nsoll));
            && (rc == 0 <==> s.state == CyclicActive)
            && (rc != 0 ==> t == s && rc == -15)
            && (rc == 0 ==> t == s.(output := t.output, outputLen := t.outputLen) && t.outputLen == 4
                            && t.output[0] + t.output[1] as int * 256 == stw1
                            && t.output[2] + t.output[3] as int * 256 == nsoll && t.output[4..] == s.output[4..])
  {
  }

  // A received frame changes the input bytes only, and only a good one of the ID does: exactly the
  // configured number of them, from behind its IOPS.
  lemma FrameOutcome(s: Api, inFid: u16, f: bytes)
    requires Lifecycle(s)
    ensures var t, n := Step(s, FrameReceived(inFid, f)).0, s.inputLen;
            && t == s.(input := t.input)
            && if |f| >= 22 + n && GetBe16(f, 14) == inFid && f[16] >= 0x80
               then t.input[..n] == f[17..17 + n] && t.input[n..] == s.input[n..]
               else t.input == s.input
  {
  }

  // Resetting the statistics touches nothing else, and a DCP call with good arguments leaves
  // nothing behind but the idle state.
  lemma OtherOutcomes(s: Api, during: PnState, dcpRc: int)
    requires Lifecycle(s)
    ensures Step(s, ResetStats) == (s, 0)
    ensures Step(s, Dcp(during, false, dcpRc)) == (s, -1)
    ensures Step(s, Dcp(during, true, dcpRc)) == (s.(state := Idle), dcpRc)
  {
  }

  // Ending an exchange closes everything and touches no buffer; without one nothing happens.
  lemma DisconnectOutcome(s: Api)
    requires Lifecycle(s)
    ensures var (t, rc) := Step(s, Disconnect);
            && rc == 0 && t.state == Idle && !t.rpcSock && !t.thread && !t.connected && !t.cyclicStat
            && t.output == s.output && t.input == s.input && (s.state != CyclicActive ==> t == s)
  {
  }

  // ---------- the object ----------

  class Context {
    var state: PnState
    var rpcSock: bool
    var cyclicRunning: bool
    var cyclicThread: bool
    var connected: bool
    var cyclicStat: bool
    const outputBuf: array<byte>
    var outputLen: nat
    const inputBuf: array<byte>
    var inputLen: nat
    var outputIops: byte
    var outputFid: u16
    var inputFid: u16
    var cycleCounter: u16
    const localMac: Mac
    const deviceMac: Mac

    ghost predicate Valid()
      reads this, outputBuf, inputBuf
    {
      outputBuf != inputBuf && outputBuf.Length == inputBuf.Length == PN_MAX_IO_LEN
      && inputLen <= PN_MAX_IO_LEN && outputLen <= PN_MAX_IO_LEN
    }

    ghost function View(): Api
      reads this, outputBuf, inputBuf
    {
      Api(state, rpcSock, cyclicRunning, cyclicThread, connected, cyclicStat,
          outputBuf[..], outputLen, inputBuf[..], inputLen)
    }

    // PN_Initialize once the adapter is open
    constructor (localMac: Mac, deviceMac: Mac)
      ensures Valid() && fresh(outputBuf) && fresh(inputBuf) && Lifecycle(View())
      ensures state == Idle && outputFid == 0xC000 && inputFid == 0xC001
      ensures outputBuf[..T1_LEN] == Telegram1(STW1_STOP, 0) && inputBuf[..] == Zeros(PN_MAX_IO_LEN)
    {
      this.localMac, this.deviceMac := localMac, deviceMac;
      state, rpcSock, cyclicRunning, cyclicThread, connected, cyclicStat := Idle, false, false, false, false, false;
      outputBuf := new byte[PN_MAX_IO_LEN](_ => 0);
      inputBuf := new byte[PN_MAX_IO_LEN](_ => 0);
      outputLen, inputLen, outputIops, outputFid, inputFid, cycleCounter := T1_LEN, T1_LEN, 0x80, 0xC000, 0xC001, 0;
      new;
      PutBytes(outputBuf, 0, Telegram1(STW1_STOP, 0));
    }

    // memcpy into the head of a buffer
    static method CopyIn(buf: array<byte>, d: bytes)
      requires |d| <= buf.Length
      modifies buf
      ensures buf[..] == Put(old(buf[..]), d)
    {
      PutBytes(buf, 0, d);
      BufferIs(old(buf[..]), buf[..], d);
    }

    method ResetCycle()
      requires Valid()
      modifies this`cycleCounter, this`outputIops, this`outputLen, this`inputLen
      ensures Valid()
      ensures View() == old(View()).(outputLen := if old(outputLen) == 0 then T1_LEN else old(outputLen),
                                     inputLen := if old(inputLen) == 0 then T1_LEN else old(inputLen))
    {
      cycleCounter, outputIops := 0, 0x80;
      if outputLen == 0 { outputLen := T1_LEN; }
      if inputLen == 0 { inputLen := T1_LEN; }
    }

    // rt_cyclic_start
    method CyclicStart(threadOk: bool) returns (rc: int)
      requires Valid()
      modifies this`cyclicRunning, this`cyclicThread, this`cycleCounter,
               this`outputIops, this`outputLen, this`inputLen, outputBuf
      ensures Valid()
      ensures var s := old(View());
              && rc == (if s.running then PN_ERR_CYCLIC_ALREADY else if threadOk then PN_OK else PN_ERR_INTERNAL)
              && View() == if s.running then s
                           else if threadOk then Started(s)
                           else Started(s).(running := false, thread := s.thread)
    {
      hide Telegram1, Put;
      if cyclicRunning {
        return PN_ERR_CYCLIC_ALREADY;
      }
      cyclicRunning := true;
      ResetCycle();
      CopyIn(outputBuf, Telegram1(STW1_STOP, 0));
      if !threadOk {
        cyclicRunning := false;
        return PN_ERR_INTERNAL;
      }
      cyclicThread := true;
      rc := PN_OK;
    }

    // rt_cyclic_stop
    method CyclicStop()
      modifies this`cyclicRunning, this`cyclicThread
      ensures !cyclicRunning && cyclicThread == (if old(cyclicRunning) then false else old(cyclicThread))
    {
      if !cyclicRunning {
        return;
      }
      cyclicRunning := false;
      cyclicThread := false;
    }

    // PN_Connect; the socket, the connect sequence and the thread answer as given.
    method Connect(ipOk: bool, sockOk: bool, rpcRc: int, threadOk: bool) returns (rc: int)
      requires Valid()
      modifies this, outputBuf
      ensures Valid() && (View(), rc) == Step(old(View()), Call.Connect(ipOk, sockOk, rpcRc, threadOk))
    {
      hide AfterSetup;
      if state == CyclicActive {
        return PN_ERR_CYCLIC_ALREADY;
      }
      if !ipOk {
        return PN_ERR_INVALID_PARAM;
      }
      state := RpcConnecting;
      rpcSock := sockOk;
      if !sockOk {
        state := Idle;
        return PN_ERR_RPC_CONNECT;
      }
      state := RpcWriting;
      if rpcRc != PN_OK {
        rpcSock := false;
        state := Idle;
        return rpcRc;
      }
      rc := StartExchange(threadOk);
    }

    method StartExchange(threadOk: bool) returns (rc: int)
      requires Valid()
      modifies this, outputBuf
      ensures Valid() && (View(), rc) == AfterSetup(old(View()), threadOk)
    {
      hide Telegram1, Put;
      state := CyclicActive;
      rc := CyclicStart(threadOk);
      if rc != PN_OK {
        rpcSock := false;
        state := Idle;
        return rc;
      }
      connected, cyclicStat := true, true;
    }

    method Disconnect() returns (rc: int)
      requires Valid()
      modifies this
      ensures Valid() && (View(), rc) == Step(old(View()), Call.Disconnect)
    {
      if state != CyclicActive && state != Disconnecting {
        return PN_OK;
      }
      state := Disconnecting;
      CyclicStop();
      rpcSock := false;
      connected, cyclicStat := false, false;
      state := Idle;
      rc := PN_OK;
    }

    method WriteOutputs(data: bytes) returns (rc: int)
      requires Valid()
      modifies this`outputLen, outputBuf
      ensures Valid() && (View(), rc) == Step(old(View()), Call.WriteOutputs(data))
    {
      if state != CyclicActive {
        return PN_ERR_NOT_CONNECTED;
      }
      if |data| > PN_MAX_IO_LEN {
        return PN_ERR_BUFFER_TOO_SMALL;
      }
      CopyIn(outputBuf, data);
      outputLen := |data|;
      rc := PN_OK;
    }

    method DriveSetpoint(stw1: u16, nsoll: u16) returns (rc: int)
      requires Valid()
      modifies this`outputLen, outputBuf
      ensures Valid() && (View(), rc) == Step(old(View()), Call.DriveSetpoint(stw1, nsoll))
    {
      if state != CyclicActive {
        return PN_ERR_NOT_CONNECTED;
      }
      var buf := Telegram1(stw1, nsoll);
      CopyIn(outputBuf, buf);
      outputLen := T1_LEN;
      rc := PN_OK;
    }

    method DriveStatus() returns (rc: int, zsw1: u16, nist: u16)
      requires Valid()
      ensures rc == if state == CyclicActive then PN_OK else PN_ERR_NOT_CONNECTED
      ensures rc == PN_OK ==> (zsw1, nist) == Words(inputBuf[..T1_LEN])
    {
      if state != CyclicActive {
        return PN_ERR_NOT_CONNECTED, 0, 0;
      }
      zsw1 := inputBuf[0] + inputBuf[1] as int * 0x100;
      nist := inputBuf[2] + inputBuf[3] as int * 0x100;
      rc := PN_OK;
    }

    // As many bytes as both sides have
    method ReadInputs(data: array<byte>, length: nat) returns (rc: int)
      requires Valid() && length <= data.Length && data != inputBuf && data != outputBuf
      modifies data
      ensures rc == if state != CyclicActive then PN_ERR_NOT_CONNECTED
                    else if length > PN_MAX_IO_LEN then PN_ERR_BUFFER_TOO_SMALL else PN_OK
      ensures data[..] == if rc == PN_OK then Put(old(data[..]), inputBuf[..Min(length, inputLen)]) else old(data[..])
    {
      if state != CyclicActive {
        return PN_ERR_NOT_CONNECTED;
      }
      if length > PN_MAX_IO_LEN {
        return PN_ERR_BUFFER_TOO_SMALL;
      }
      var d := inputBuf[..Min(length, inputLen)];
      CopyIn(data, d);
      rc := PN_OK;
    }

    method ResetStats() returns (rc: int)
      requires Valid()
      modifies this`connected, this`cyclicStat
      ensures Valid() && (View(), rc) == Step(old(View()), Call.ResetStats)
    {
      connected := state == CyclicActive;
      cyclicStat := cyclicRunning;
      rc := PN_OK;
    }

    // PN_DCPDiscover, PN_DCPSetIP and PN_DCPSetName as far as the state goes
    method DcpCall(during: PnState, argsOk: bool, dcpRc: int) returns (rc: int)
      requires Valid()
      modifies this`state
      ensures Valid() && (View(), rc) == Step(old(View()), Call.Dcp(during, argsOk, dcpRc))
    {
      if !argsOk {
        return PN_ERR_INVALID_PARAM;
      }
      state := during;
      state := Idle;
      rc := dcpRc;
    }

    // ---------- one cycle of the RT thread ----------

    // rt_build_output
    method BuildOutput(frame: array<byte>) returns (off: nat)
      requires Valid() && frame.Length == ETH_MAX_FRAME && frame != outputBuf && frame != inputBuf
      modifies frame
      ensures off <= ETH_MAX_FRAME && frame[..off] == Output()
      ensures off == 22 + outputLen && FrameFields(frame[..off])
    {
      hide Be16, OutputFrame, EthHeader, FrameFields, GetBe16;
      var data := outputBuf[..outputLen];
      ghost var d: bytes := [];
      assert frame[..0] == d;
      off, d := Add(frame, 0, deviceMac, d);
      off, d := Add(frame, off, localMac, d);
      off, d := Add(frame, off, [0x88, 0x92], d);
      off, d := Add(frame, off, Be16(outputFid), d);
      off, d := Add(frame, off, [if outputIops != 0 then outputIops else 0x80], d);
      off, d := Add(frame, off, data, d);
      off, d := Add(frame, off, [0x80], d);
      off, d := Add(frame, off, Be16(cycleCounter), d);
      off, d := Add(frame, off, [0x35, 0], d);
      OutputFrameIs(d, deviceMac, localMac, outputFid,
                    if outputIops != 0 then outputIops else 0x80, data, cycleCounter);
      FieldsOfOutput();
    }

    method Add(frame: array<byte>, off: nat, f: bytes, ghost d: bytes) returns (next: nat, ghost e: bytes)
      requires off + |f| <= frame.Length && frame[..off] == d
      modifies frame
      ensures next == off + |f| && e == d + f && frame[..next] == e
    {
      PutBytes(frame, off, f);
      next, e := off + |f|, d + f;
    }

    // What the cyclic frame carries, byte by byte; an IOPS of 0 goes out as good.
    ghost predicate FrameFields(f: bytes)
      requires Valid()
      reads this, outputBuf, inputBuf
    {
      var n := outputLen;
      && |f| == 22 + n && f[0..6] == deviceMac && f[6..12] == localMac && f[12] == 0x88 && f[13] == 0x92
      && GetBe16(f, 14) == outputFid && f[16] == (if outputIops == 0 then 0x80 else outputIops)
      && f[17..17 + n] == outputBuf[..n] && f[17 + n] == 0x80 && GetBe16(f, 18 + n) == cycleCounter
      && f[20 + n] == 0x35 && f[21 + n] == 0
    }

    lemma FieldsOfOutput()
      requires Valid()
      ensures FrameFields(Output())
    {
      hide OutputFrame, GetBe16;
      OutputBytes(deviceMac, localMac, outputFid, if outputIops != 0 then outputIops else 0x80,
                  outputBuf[..outputLen], cycleCounter);
    }

    ghost function Output(): (s: bytes)
      requires Valid()
      reads this, outputBuf, inputBuf
      ensures |s| == 22 + outputLen
    {
      OutputFrame(deviceMac, localMac, outputFid, if outputIops != 0 then outputIops else 0x80,
                  outputBuf[..outputLen], cycleCounter)
    }

    // The sending half of a cycle: the frame as it goes on the wire
    method SendOutput(txframe: array<byte>) returns (flen: nat)
      requires Valid() && txframe.Length == ETH_MAX_FRAME && txframe != outputBuf && txframe != inputBuf
      modifies txframe, this`cycleCounter
      ensures flen <= ETH_MAX_FRAME && txframe[..flen] == Padded(old(Output()))
      ensures cycleCounter == (old(cycleCounter) + 1) % 0x1_0000
    {
      flen := BuildOutput(txframe);
      if flen < ETH_MIN_FRAME {
        PutBytes(txframe, flen, Zeros(ETH_MIN_FRAME - flen));
        flen := ETH_MIN_FRAME;
      }
      cycleCounter := (cycleCounter + 1) % 0x1_0000;
    }

    // The thread's frame-ID test and rt_parse_input
    method FrameReceived(frame: bytes)
      requires Valid()
      modifies inputBuf
      ensures Valid() && View() == Step(old(View()), Call.FrameReceived(inputFid, frame)).0
    {
      if |frame| <= 16 || GetBe16(frame, 14) != inputFid {
        return;
      }
      if |frame| < 22 + inputLen || frame[16] < 0x80 {
        return;
      }
      var d := frame[17..17 + inputLen];
      CopyIn(inputBuf, d);
    }
  }

  lemma OutputFrameIs(d: bytes, dst: Mac, src: Mac, fid: u16, iops: byte, data: bytes, cc: u16)
    requires d == [] + dst + src + [0x88, 0x92] + Be16(fid) + [iops] + data + [0x80] + Be16(cc) + [0x35, 0]
    ensures d == OutputFrame(dst, src, fid, iops, data, cc)
  {
    assert [] + dst == dst;
  }

  lemma BufferIs(was: bytes, now: bytes, d: bytes)
    requires |now| == |was| && |d| <= |was| && now[..|d|] == d && now[|d|..] == was[|d|..]
    ensures now == Put(was, d)
  {
    assert now == now[..|d|] + now[|d|..];
  }
}
