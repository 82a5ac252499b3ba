// gateway_server.py: the server object whose IO buffers the client, the bridge, the Force
// command and the watchdog share.
module GatewayServer {
  import opened Bytes
  import opened Config
  import opened Framing
  import opened GatewayBuffers
  import opened StmStream

  function OutputLengths(configs: seq<DeviceConfig>): (ns: seq<nat>)
    ensures |ns| == |configs|
    ensures forall i | 0 <= i < |configs| :: ns[i] == configs[i].TotalOutputLength()
  {
    seq(|configs|, i requires 0 <= i < |configs| => configs[i].TotalOutputLength())
  }

  // Every input buffer has its configured length.
  ghost predicate InputsSized(configs: seq<DeviceConfig>, inps: seq<bytes>)
  {
    |inps| == |configs| && forall i | 0 <= i < |inps| :: |inps[i]| == configs[i].TotalInputLength()
  }

  datatype Incoming = Closed | Skipped | Payload(payload: bytes)

  class GatewayServer {
    var framed: bool
    var configs: seq<DeviceConfig>
    var watchdogMs: nat
    // one bytearray per device; `_io[i]["out"]` and `_io[i]["inp"]`
    var outs: seq<bytes>
    var inps: seq<bytes>
    var lastRx: real
    var tripped: bool

    ghost predicate Valid()
      reads this
    {
      InputsSized(configs, inps) && Bounded(OutputLengths(configs), outs)
    }

    constructor (configs: seq<DeviceConfig>, framed: bool, watchdogMs: nat)
      ensures Valid() && this.configs == configs && this.framed == framed && this.watchdogMs == watchdogMs
      ensures lastRx == 0.0 && !tripped
      ensures forall i | 0 <= i < |configs| ::
                && outs[i] == Zeros(configs[i].TotalOutputLength())
                && inps[i] == Zeros(configs[i].TotalInputLength())
    {
      this.configs, this.framed, this.watchdogMs := configs, framed, watchdogMs;
      outs := seq(|configs|, i requires 0 <= i < |configs| => Zeros(configs[i].TotalOutputLength()));
      inps := seq(|configs|, i requires 0 <= i < |configs| => Zeros(configs[i].TotalInputLength()));
      lastRx, tripped := 0.0, false;
    }

    method MonRx(data: bytes, now: real)
      requires Valid()
      modifies this`lastRx, this`tripped
      ensures lastRx == now && !tripped
    {
      lastRx := now;
      if tripped {
        tripped := false;
      }
    }

    method ZeroOutputs()
      requires Valid()
      modifies this`outs
      ensures Valid() && outs == ZeroAll(old(outs))
    {
      for i := 0 to |outs|
        invariant |outs| == |old(outs)|
        invariant forall k | 0 <= k < i :: outs[k] == Zeros(|old(outs)[k]|)
        invariant forall k | i <= k < |outs| :: outs[k] == old(outs)[k]
      {
        outs := outs[i := Zeros(|outs[i]|)];
      }
    }

    method SetOutputs(idx: nat, data: bytes)
      requires Valid()
      modifies this`outs
      ensures Valid() && outs == Force(old(outs), idx, data)
      ensures |outs| == |old(outs)| && forall k | 0 <= k < |outs| :: |outs[k]| == |old(outs)[k]|
      ensures forall k | 0 <= k < |outs| && k != idx :: outs[k] == old(outs)[k]
      ensures idx < |outs| ==> var n := Min(|data|, |outs[idx]|);
                               outs[idx][..n] == data[..n] && outs[idx][n..] == old(outs)[idx][n..]
    {
      if idx < |outs| {
        var buf := outs[idx];
        var n := Min(|data|, |buf|);
        outs := outs[idx := data[..n] + buf[n..]];
      }
    }

    method SetInputs(idx: nat, data: bytes)
      requires Valid()
      modifies this`inps
      ensures Valid() && |inps| == |old(inps)|
      ensures forall k | 0 <= k < |inps| :: inps[k] == if k == idx then SetHead(old(inps)[k], data) else old(inps)[k]
      ensures forall k | 0 <= k < |inps| && k != idx :: inps[k] == old(inps)[k]
      ensures idx < |inps| ==> forall p | 0 <= p < |inps[idx]| ::
                                 inps[idx][p] == if p < |data| then data[p] else old(inps)[idx][p]
    {
      if idx < |inps| {
        var n := Min(|data|, |inps[idx]|);
        inps := inps[idx := data[..n] + inps[idx][n..]];
      }
    }

    // The flat branch distributes the payload, the framed branch parses it.
    method ApplyOutputs(data: bytes)
      requires Valid()
      modifies this`outs
      ensures Valid() && outs == Apply(framed, OutputLengths(configs), old(outs), data)
    {
      ApplyKeepsBounded(framed, OutputLengths(configs), outs, data);
      if !framed {
        DistributeFlat(data);
      } else {
        ParseFramed(data);
      }
    }

    method DistributeFlat(data: bytes)
      requires Valid()
      modifies this`outs
      ensures outs == FlatApply(OutputLengths(configs), old(outs), data)
    {
      hide Offset, SliceAssign, FlatApply, OutputLengths, DeviceConfig.TotalOutputLength;
      ghost var ns := OutputLengths(configs);
      OffsetStart(ns);
      var offset: nat := 0;
      for i := 0 to |configs|
        invariant offset == Offset(ns, i) && |outs| == |ns|
        invariant outs == FlatApply(ns, old(outs), data)[..i] + old(outs)[i..]
      {
        var n := configs[i].TotalOutputLength();
        OffsetStep(ns, i);
        ghost var before := outs;
        assert outs[i] == old(outs)[i];
        AssignShare(i, n, Slice(data, offset, offset + n));
        ReplaceNext(FlatApply(ns, old(outs), data), old(outs), before, outs, i);
        offset := offset + n;
      }
    }

    method AssignShare(i: nat, n: nat, d: bytes)
      requires i < |outs|
      modifies this`outs
      ensures outs == old(outs)[..i] + [SliceAssign(old(outs)[i], n, d)] + old(outs)[i + 1..]
    {
      outs := outs[i := SliceAssign(outs[i], n, d)];
    }

    method CopyBlock(drive: byte, data: bytes, ds: nat, de: nat)
      requires ds <= de <= |data|
      modifies this`outs
      ensures outs == ApplyBlock(old(outs), Block(drive, data[ds..de]))
    {
      if drive < |outs| {
        var m := Min(de - ds, |outs[drive]|);
        SubSlice(data, ds, de, 0, m);
        outs := outs[drive := data[ds..ds + m] + outs[drive][m..]];
      }
    }

    // Walks the blocks, stepping one byte over anything that is not one. The final buffers are
    // the greedy chain of valid blocks folded over the old ones.
    method ParseFramed(data: bytes)
      requires Valid()
      modifies this`outs
      ensures outs == ApplyBlocks(old(outs), Blocks(data, 0))
    {
      var pos: nat := 0;
      while pos + FRAME_OVERHEAD <= |data|
        invariant ApplyBlocks(outs, Blocks(data, pos)) == ApplyBlocks(old(outs), Blocks(data, 0))
        decreases |data| - pos
      {
        pos := ParseStep(data, pos);
      }
    }

    method ParseStep(data: bytes, pos: nat) returns (next: nat)
      requires pos + FRAME_OVERHEAD <= |data|
      modifies this`outs
      ensures pos < next <= |data|
      ensures ApplyBlocks(outs, Blocks(data, next)) == ApplyBlocks(old(outs), Blocks(data, pos))
    {
      hide ValidAt, EndAt, BlockAt, GetBe16, Blocks, ApplyBlocks, ApplyBlock;
      BlocksStep(data, pos);
      ValidIff(data, pos);
      if data[pos..pos + 2] != [0xAA, 0x55] {
        return pos + 1;
      }
      var drive := data[pos + 2];
      var ln := GetBe16(data, pos + 3);
      var ds := pos + 5;
      var de := ds + ln;
      if de + 2 > |data| || data[de..de + 2] != [0x55, 0xAA] {
        return pos + 1;
      }
      ApplyFirst(outs, BlockAt(data, pos), Blocks(data, de + 2));
      CopyBlock(drive, data, ds, de);
      next := de + 2;
    }

    // Flat concatenation of every device's inputs, or one block per device. A block of more than
    // 65535 bytes makes struct.pack raise.
    method BuildInputs() returns (r: Result<bytes>)
      requires Valid()
      ensures !framed ==> r == Success(Flatten(inps))
      ensures framed ==> (r.Success? <==> Printables(Numbered(inps)))
      ensures framed && r.Success? ==> r.value == PrintAll(Numbered(inps))
    {
      hide Printables, Numbered, PrintAll;
      if framed {
        r := BuildFramed();
        return;
      }
      var joined: bytes := [];
      for i := 0 to |configs|
        invariant joined == Flatten(inps[..i])
      {
        FlattenSnoc(inps[..i], inps[i]);
        assert inps[..i + 1] == inps[..i] + [inps[i]];
        joined := joined + inps[i];
      }
      assert inps[..|configs|] == inps;
      r := Success(joined);
    }

    method BuildFramed() returns (r: Result<bytes>)
      requires Valid()
      ensures r.Success? <==> Printables(Numbered(inps))
      ensures r.Success? ==> r.value == PrintAll(Numbered(inps))
    {
      hide Print;
      var parts: bytes := [];
      ghost var bs := Numbered(inps);
      for i := 0 to |configs|
        invariant Printables(bs[..i]) && parts == PrintAll(bs[..i])
      {
        var data := inps[i];
        if |data| >= 0x1_0000 {
          assert !Printable(bs[i]);
          return Failure(StructError);
        }
        assert bs[..i + 1] == bs[..i] + [bs[i]];
        PrintAllSnoc(bs[..i], bs[i]);
        PrintIs(i % 0x100, data);
        parts := parts + ([0xAA, 0x55] + [i % 0x100] + Be16(|data|) + data + [0x55, 0xAA]);
      }
      assert bs[..|configs|] == bs;
      r := Success(parts);
    }

    // What every server loop does with a payload: two steps, each atomic on its own
    method Receive(payload: bytes)
      requires Valid()
      modifies this`outs, this`lastRx, this`tripped
      ensures Valid() && outs == Apply(framed, OutputLengths(configs), old(outs), payload)
      ensures !tripped
    {
      var now: real := *;
      MonRx(payload, now);
      ApplyOutputs(payload);
    }

    // ---------- STM: [4-byte length][payload], as the bytes arrive ----------

    // Exactly n bytes, however the stream is cut, or None when the peer closed or the socket broke
    method RecvAll(conn: Connection, n: nat) returns (r: Option<bytes>)
      modifies conn
      ensures conn.Progress(old(conn.delivered), old(conn.pending), old(conn.schedule))
      ensures match r
              case Some(buf) => |buf| == n && conn.delivered == old(conn.delivered) + buf
              case None => |conn.delivered| < |old(conn.delivered)| + n
                           && (conn.pending == [] || Broken in old(conn.schedule))
    {
      var buf: bytes := [];
      while |buf| < n
        invariant |buf| <= n
        invariant conn.delivered == old(conn.delivered) + buf
        invariant conn.Progress(old(conn.delivered), old(conn.pending), old(conn.schedule))
        decreases |conn.pending| + |conn.schedule|
      {
        var got := conn.Recv(n - |buf|);
        match got
        case Chunk(chunk) =>
          if chunk == [] {
            return None;
          }
          buf := buf + chunk;
        case TimedOut =>
        case OsError => return None;
      }
      r := Some(buf);
    }

    // One turn of the receive loop: a header and, unless it announces nothing or too much, its
    // payload. `d` are the bytes this turn took off the stream.
    method NextMessage(conn: Connection) returns (r: Incoming, ghost d: bytes)
      modifies conn
      ensures conn.delivered == old(conn.delivered) + d
      ensures conn.Progress(old(conn.delivered), old(conn.pending), old(conn.schedule))
      ensures match r
              case Closed => Messages(d) == [] && (conn.pending == [] || Broken in old(conn.schedule))
              case Skipped => Messages(d) == [] && Complete(d) && d != []
              case Payload(p) => Messages(d) == [p] && Complete(d) && d != []
    {
      var hdr := RecvAll(conn, 4);
      d := conn.delivered[|old(conn.delivered)|..];
      if hdr.None? {
        return Closed, d;
      }
      var n := GetBe32(hdr.value, 0);
      if n == 0 || n > MAX_MESSAGE {
        SkippedHeader(hdr.value);
        return Skipped, d;
      }
      ghost var before := conn.delivered;
      var payload := RecvAll(conn, n);
      ghost var rest := conn.delivered[|before|..];
      d := hdr.value + rest;
      Assoc(old(conn.delivered), hdr.value, rest);
      if payload.None? {
        TruncatedMessage(d, hdr.value);
        return Closed, d;
      }
      WholeMessage(hdr.value, payload.value);
      return Payload(payload.value), d;
    }

    // The receive loop of one STM connection: the buffers end as if every whole message in the
    // delivered bytes had been applied in order, and with a socket that never breaks the
    // delivered bytes are everything the peer sent.
    method HandleStm(conn: Connection) returns (ghost applied: seq<bytes>)
      requires Valid() && conn.delivered == []
      modifies conn, this`outs, this`lastRx, this`tripped
      ensures Valid()
      ensures applied == Messages(conn.delivered)
      ensures outs == ApplyAll(framed, OutputLengths(configs), old(outs), applied)
      ensures tripped == (applied == [] && old(tripped))
      ensures conn.delivered <= old(conn.pending)
      ensures Broken !in old(conn.schedule) ==> conn.delivered == old(conn.pending)
    {
      hide Messages, Complete, Apply, ApplyAll, OutputLengths;
      applied := [];
      NothingReceived(framed, OutputLengths(configs), outs);
      assert [] + conn.pending == conn.pending;
      while true
        invariant Valid()
        invariant Complete(conn.delivered) && applied == Messages(conn.delivered)
        invariant outs == ApplyAll(framed, OutputLengths(configs), old(outs), applied)
        invariant conn.Progress([], old(conn.pending), old(conn.schedule))
        invariant tripped == (applied == [] && old(tripped))
        decreases |conn.pending|
      {
        ghost var consumed := conn.delivered;
        var incoming, d := NextMessage(conn);
        CompleteAppend(consumed, d);
        match incoming
        case Closed => break;
        case Skipped =>
        case Payload(payload) =>
          ApplyAllSnoc(framed, OutputLengths(configs), old(outs), applied, payload);
          Receive(payload);
          applied := applied + [payload];
      }
    }
  }

  lemma NothingReceived(framed: bool, ns: seq<nat>, outs: seq<bytes>)
    requires |outs| == |ns|
    ensures Messages([]) == [] && Complete([]) && ApplyAll(framed, ns, outs, []) == outs
  {
  }
}
