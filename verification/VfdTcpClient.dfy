// vfd_tcp_client.py: the client's frame builder and its resynchronising reader, and the round
// trips between client and gateway.
module VfdTcpClient {
  import opened Bytes
  import opened Framing
  import opened GatewayBuffers

  datatype Panel = Panel(stw1: u16, nsoll: u16)

  datatype Words = Words(zsw1: u16, nist: u16)

  // One device's output slot: the two words big-endian, zero-padded to outB bytes
  function PanelData(p: Panel, outB: nat): (d: bytes)
    requires outB >= 4
    ensures |d| == outB
    ensures d[0] as int * 256 + d[1] == p.stw1 && d[2] as int * 256 + d[3] == p.nsoll
    ensures forall i | 4 <= i < outB :: d[i] == 0
  {
    Be16(p.stw1) + Be16(p.nsoll) + Zeros(outB - 4)
  }

  function PanelDatas(panels: seq<Panel>, outB: nat): (ds: seq<bytes>)
    requires outB >= 4
    ensures |ds| == |panels|
    ensures forall i | 0 <= i < |panels| :: ds[i] == PanelData(panels[i], outB)
  {
    seq(|panels|, i requires 0 <= i < |panels| => PanelData(panels[i], outB))
  }

  method BuildFrame(panels: seq<Panel>, outBytes: nat, framed: bool) returns (r: Result<bytes>)
    ensures var datas := PanelDatas(panels, Max(4, outBytes));
            && (!framed ==> r == Success(Flatten(datas)))
            && (framed ==> (r.Success? <==> panels == [] || Max(4, outBytes) < 0x1_0000))
            && (framed && r.Success? ==> Printables(Numbered(datas)) && r.value == PrintAll(Numbered(datas)))
  {
    hide PanelDatas, PanelData, Numbered, Print;
    var outB := Max(4, outBytes);
    if framed && panels != [] && outB >= 0x1_0000 {
      return Failure(StructError);
    }
    var frame: bytes := [];
    ghost var datas := PanelDatas(panels, outB);
    ghost var bs := Numbered(datas);
    for i := 0 to |panels|
      invariant !framed ==> frame == Flatten(datas[..i])
      invariant framed ==> Printables(bs[..i]) && frame == PrintAll(bs[..i])
    {
      assert datas[..i + 1] == datas[..i] + [datas[i]] && bs[..i + 1] == bs[..i] + [bs[i]];
      var slot := PanelSlot(panels[i], outB);
      if framed {
        PrintAllSnoc(bs[..i], bs[i]);
        PrintIs(i % 0x100, slot);
        frame := frame + ([0xAA, 0x55] + [i % 0x100] + Be16(outB) + slot + [0x55, 0xAA]);
      } else {
        FlattenSnoc(datas[..i], datas[i]);
        frame := frame + slot;
      }
    }
    assert datas[..|panels|] == datas && bs[..|panels|] == bs;
    r := Success(frame);
  }

  method PanelSlot(p: Panel, outB: nat) returns (d: bytes)
    requires outB >= 4
    ensures d == PanelData(p, outB)
  {
    d := Be16(p.stw1) + Be16(p.nsoll);
    d := d + Zeros(outB - |d|);
  }

  // ---------- reading the gateway's frame ----------

  function FirstWords(d: bytes): (w: Words)
    requires |d| >= 4
    ensures w.zsw1 == d[0] as int * 256 + d[1] && w.nist == d[2] as int * 256 + d[3]
  {
    Words(GetBe16(d, 0), GetBe16(d, 2))
  }

  function Note(vals: seq<Words>, b: Block): (r: seq<Words>)
    ensures |r| == |vals|
  {
    if b.drive < |vals| && |b.data| >= 4 then vals[b.drive := FirstWords(b.data)] else vals
  }

  function NoteAll(vals: seq<Words>, bs: seq<Block>): (r: seq<Words>)
    ensures |r| == |vals|
    decreases |bs|
  {
    if bs == [] then vals else NoteAll(Note(vals, bs[0]), bs[1..])
  }

  function NoWords(n: nat): (vals: seq<Words>)
    ensures |vals| == n && forall i | 0 <= i < n :: vals[i] == Words(0, 0)
  {
    seq(n, _ => Words(0, 0))
  }

  lemma NoteFirst(vals: seq<Words>, b: Block, rest: seq<Block>)
    ensures NoteAll(vals, [b] + rest) == NoteAll(Note(vals, b), rest)
  {
    assert ([b] + rest)[1..] == rest;
  }

  method ReadFramed(data: bytes, n: nat) returns (vals: seq<Words>)
    ensures vals == NoteAll(NoWords(n), Blocks(data, 0))
  {
    vals := NoWords(n);
    var pos: nat := 0;
    while pos + FRAME_OVERHEAD <= |data|
      invariant NoteAll(vals, Blocks(data, pos)) == NoteAll(NoWords(n), Blocks(data, 0))
      invariant |vals| == n
      decreases |data| - pos
    {
      vals, pos := ReadStep(data, pos, vals);
    }
  }

  method ReadStep(data: bytes, pos: nat, was: seq<Words>) returns (vals: seq<Words>, next: nat)
    requires pos + FRAME_OVERHEAD <= |data|
    ensures pos < next <= |data| && |vals| == |was|
    ensures NoteAll(vals, Blocks(data, next)) == NoteAll(was, Blocks(data, pos))
  {
    hide ValidAt, EndAt, BlockAt, GetBe16, Blocks, NoteAll, FirstWords;
    vals := was;
    BlocksStep(data, pos);
    ValidIff(data, pos);
    if data[pos..pos + 2] != [0xAA, 0x55] {
      return vals, pos + 1;
    }
    var drv := data[pos + 2];
    var ln := GetBe16(data, pos + 3);
    var ds := pos + 5;
    var de := ds + ln;
    if de + 2 > |data| || data[de..de + 2] != [0x55, 0xAA] {
      return vals, pos + 1;
    }
    NoteFirst(vals, BlockAt(data, pos), Blocks(data, de + 2));
    if drv < |vals| && ln >= 4 {
      WordsInside(data, ds, de);
      vals := vals[drv := Words(GetBe16(data, ds), GetBe16(data, ds + 2))];
    }
    next := de + 2;
  }

  lemma WordsInside(data: bytes, ds: nat, de: nat)
    requires ds + 4 <= de <= |data|
    ensures FirstWords(data[ds..de]) == Words(GetBe16(data, ds), GetBe16(data, ds + 2))
  {
  }

  // ---------- round trips ----------

  lemma {:induction false} NoteAllByDrive(vals: seq<Words>, datas: seq<bytes>, from: nat)
    requires from <= |datas| <= 0x100
    ensures var r := NoteAll(vals, Numbered(datas)[from..]);
            forall i | 0 <= i < |vals| ::
              r[i] == if from <= i < |datas| && |datas[i]| >= 4 then FirstWords(datas[i]) else vals[i]
    decreases |datas| - from
  {
    hide FirstWords;
    var bs := Numbered(datas)[from..];
    if from < |datas| {
      assert bs[0] == Block(from, datas[from]) && bs[1..] == Numbered(datas)[from + 1..];
      NoteAllByDrive(Note(vals, bs[0]), datas, from + 1);
    }
  }

  // From the gateway's frame of up to 256 drives the client recovers the first two words of each
  // drive with at least four bytes, and (0, 0) for the others, whatever the payloads contain.
  lemma ClientReadsGateway(inps: seq<bytes>)
    requires |inps| <= 0x100 && Printables(Numbered(inps))
    ensures var vals := NoteAll(NoWords(|inps|), Blocks(PrintAll(Numbered(inps)), 0));
            forall i | 0 <= i < |inps| :: vals[i] == if |inps[i]| >= 4 then FirstWords(inps[i]) else Words(0, 0)
  {
    PrintedRoundTrip(Numbered(inps));
    NoteAllByDrive(NoWords(|inps|), inps, 0);
    assert Numbered(inps)[0..] == Numbered(inps);
  }

  // The gateway's buffers after the client's framed command: each drive's buffer starts with
  // exactly its panel's STW1 and NSOLL, and equals the panel's slot when the lengths agree.
  lemma GatewayReadsClient(panels: seq<Panel>, outB: nat, ns: seq<nat>, outs: seq<bytes>)
    requires |panels| <= 0x100 && 4 <= outB < 0x1_0000 && |outs| == |ns|
    ensures var datas := PanelDatas(panels, outB);
            Printables(Numbered(datas))
            && var r := Apply(true, ns, outs, PrintAll(Numbered(datas)));
               forall i | 0 <= i < |outs| && i < |panels| ::
                 && (|outs[i]| >= 4 ==> FirstWords(r[i]) == Words(panels[i].stw1, panels[i].nsoll))
                 && (|outs[i]| == outB ==> r[i] == datas[i])
  {
    var datas := PanelDatas(panels, outB);
    FramedRoundTrip(ns, outs, datas);
    forall i | 0 <= i < |outs| && i < |panels| && |outs[i]| >= 4
      ensures FirstWords(SetHead(outs[i], datas[i])) == Words(panels[i].stw1, panels[i].nsoll)
    {
      HeadWords(outs[i], panels[i], outB);
    }
  }

  lemma HeadWords(buf: bytes, p: Panel, outB: nat)
    requires outB >= 4 && |buf| >= 4
    ensures FirstWords(SetHead(buf, PanelData(p, outB))) == Words(p.stw1, p.nsoll)
  {
    var d := PanelData(p, outB);
    var r := SetHead(buf, d);
    assert d[0..2] == Be16(p.stw1) && d[2..4] == Be16(p.nsoll);
    assert r[0] == d[0] && r[1] == d[1] && r[2] == d[2] && r[3] == d[3];
    ReadsBack16(d, 0, p.stw1);
    ReadsBack16(d, 2, p.nsoll);
  }
}
