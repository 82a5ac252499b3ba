// What the gateway does to its output buffers, as functions: the state that the server class
// updates in place and that the watchdog argument is about.
module GatewayBuffers {
  import opened Bytes
  import opened Framing

  // ---------- Python slice assignments ----------

  // buf[:n] = d, which also grows or shrinks buf when |d| differs from the replaced part
  function SliceAssign(buf: bytes, n: nat, d: bytes): bytes
  {
    d + buf[Min(n, |buf|)..]
  }

  // n = min(len(d), len(buf)); buf[:n] = d[:n]
  function SetHead(buf: bytes, d: bytes): (r: bytes)
    ensures |r| == |buf|
    ensures forall i | 0 <= i < |buf| :: r[i] == if i < |d| then d[i] else buf[i]
  {
    var n := Min(|d|, |buf|);
    d[..n] + buf[n..]
  }

  // ---------- operations ----------

  // Sum of the first i configured lengths
  function Offset(ns: seq<nat>, i: nat): nat
    requires i <= |ns|
  {
    if i == 0 then 0 else Offset(ns, i - 1) + ns[i - 1]
  }

  function Total(ns: seq<nat>): nat { Offset(ns, |ns|) }

  lemma OffsetStart(ns: seq<nat>)
    ensures Offset(ns, 0) == 0
  {
  }

  lemma OffsetStep(ns: seq<nat>, i: nat)
    requires i < |ns|
    ensures Offset(ns, i + 1) == Offset(ns, i) + ns[i]
  {
  }

  lemma {:induction false} OffsetMonotone(ns: seq<nat>, i: nat, j: nat)
    requires i <= j <= |ns|
    ensures Offset(ns, i) <= Offset(ns, j)
    decreases j
  {
    if i < j { OffsetMonotone(ns, i, j - 1); }
  }

  function FlatApply(ns: seq<nat>, outs: seq<bytes>, data: bytes): (r: seq<bytes>)
    requires |outs| == |ns|
    ensures |r| == |outs|
    ensures forall i | 0 <= i < |outs| ::
              r[i] == SliceAssign(outs[i], ns[i], Share(ns, i, data))
  {
    seq(|outs|, i requires 0 <= i < |outs| => SliceAssign(outs[i], ns[i], Share(ns, i, data)))
  }

  function ApplyBlock(outs: seq<bytes>, b: Block): (r: seq<bytes>)
    ensures |r| == |outs|
  {
    if b.drive < |outs| then outs[b.drive := SetHead(outs[b.drive], b.data)] else outs
  }

  function ApplyBlocks(outs: seq<bytes>, bs: seq<Block>): (r: seq<bytes>)
    ensures |r| == |outs|
    ensures forall i | 0 <= i < |outs| :: |r[i]| == |outs[i]|
    decreases |bs|
  {
    if bs == [] then outs else ApplyBlocks(ApplyBlock(outs, bs[0]), bs[1..])
  }

  lemma ApplyFirst(outs: seq<bytes>, b: Block, rest: seq<Block>)
    ensures ApplyBlocks(outs, [b] + rest) == ApplyBlocks(ApplyBlock(outs, b), rest)
  {
    assert ([b] + rest)[1..] == rest;
  }

  lemma {:induction false} ApplyLast(outs: seq<bytes>, bs: seq<Block>, b: Block)
    ensures ApplyBlocks(outs, bs + [b]) == ApplyBlock(ApplyBlocks(outs, bs), b)
    decreases |bs|
  {
    hide ApplyBlock;
    if bs == [] {
      assert bs + [b] == [b] && [b][1..] == [];
    } else {
      assert (bs + [b])[1..] == bs[1..] + [b];
      ApplyLast(ApplyBlock(outs, bs[0]), bs[1..], b);
    }
  }

  // Of several blocks for one drive the last one counts, byte by byte.
  lemma LastBlockCounts(outs: seq<bytes>, bs: seq<Block>, b: Block)
    requires b.drive < |outs|
    ensures var before, after := ApplyBlocks(outs, bs), ApplyBlocks(outs, bs + [b]);
            forall i, p | 0 <= i < |outs| && 0 <= p < |outs[i]| ::
              after[i][p] == if i == b.drive && p < |b.data| then b.data[p] else before[i][p]
  {
    ApplyLast(outs, bs, b);
  }

  // The effect of one received payload
  function Apply(framed: bool, ns: seq<nat>, outs: seq<bytes>, data: bytes): (r: seq<bytes>)
    requires |outs| == |ns|
    ensures |r| == |outs|
  {
    if framed then ApplyBlocks(outs, Blocks(data, 0)) else FlatApply(ns, outs, data)
  }

  function ApplyAll(framed: bool, ns: seq<nat>, outs: seq<bytes>, payloads: seq<bytes>): (r: seq<bytes>)
    requires |outs| == |ns|
    ensures |r| == |outs|
  {
    if payloads == [] then outs
    else Apply(framed, ns, ApplyAll(framed, ns, outs, payloads[..|payloads| - 1]), payloads[|payloads| - 1])
  }

  lemma ApplyAllSnoc(framed: bool, ns: seq<nat>, outs: seq<bytes>, payloads: seq<bytes>, p: bytes)
    requires |outs| == |ns|
    ensures ApplyAll(framed, ns, outs, payloads + [p]) == Apply(framed, ns, ApplyAll(framed, ns, outs, payloads), p)
  {
    assert (payloads + [p])[..|payloads|] == payloads;
  }

  function ZeroAll(outs: seq<bytes>): (r: seq<bytes>)
    ensures |r| == |outs|
    ensures forall i | 0 <= i < |outs| :: r[i] == Zeros(|outs[i]|)
  {
    seq(|outs|, i requires 0 <= i < |outs| => Zeros(|outs[i]|))
  }

  function Force(outs: seq<bytes>, idx: nat, data: bytes): (r: seq<bytes>)
    ensures |r| == |outs|
  {
    if idx < |outs| then outs[idx := SetHead(outs[idx], data)] else outs
  }

  // ---------- flat payloads ----------

  // Every buffer is at most as long as configured: what configure() starts with and every
  // operation keeps, flat payloads of any length included.
  ghost predicate Bounded(ns: seq<nat>, outs: seq<bytes>)
  {
    |outs| == |ns| && forall i | 0 <= i < |outs| :: |outs[i]| <= ns[i]
  }

  ghost predicate Sized(ns: seq<nat>, outs: seq<bytes>)
  {
    |outs| == |ns| && forall i | 0 <= i < |outs| :: |outs[i]| == ns[i]
  }

  lemma ApplyKeepsBounded(framed: bool, ns: seq<nat>, outs: seq<bytes>, data: bytes)
    requires Bounded(ns, outs)
    ensures Bounded(ns, Apply(framed, ns, outs, data))
    ensures framed && Sized(ns, outs) ==> Sized(ns, Apply(framed, ns, outs, data))
  {
  }

  // The i-th device's share of a flat payload
  function Share(ns: seq<nat>, i: nat, data: bytes): bytes
    requires i < |ns|
  {
    Slice(data, Offset(ns, i), Offset(ns, i) + ns[i])
  }

  lemma ShareIsSlice(ns: seq<nat>, i: nat, data: bytes)
    requires i < |ns| && Total(ns) <= |data|
    ensures Offset(ns, i) + ns[i] <= |data| && Share(ns, i, data) == data[Offset(ns, i)..Offset(ns, i) + ns[i]]
  {
    OffsetMonotone(ns, i + 1, |ns|);
  }

  lemma AssignsShare(buf: bytes, n: nat, d: bytes)
    requires |buf| <= n
    ensures SliceAssign(buf, n, d) == d
  {
  }

  // A payload at least as long as the configured total leaves each buffer as exactly its slice,
  // even a buffer an earlier short payload had shrunk.
  lemma FullPayload(ns: seq<nat>, outs: seq<bytes>, data: bytes)
    requires Bounded(ns, outs) && Total(ns) <= |data|
    ensures Sized(ns, FlatApply(ns, outs, data))
    ensures forall i | 0 <= i < |ns| ::
              Offset(ns, i) + ns[i] <= |data|
              && FlatApply(ns, outs, data)[i] == data[Offset(ns, i)..Offset(ns, i) + ns[i]]
  {
    hide Offset, Share, SliceAssign, Slice, FlatApply, Total;
    forall i | 0 <= i < |ns|
      ensures Offset(ns, i) + ns[i] <= |data|
      ensures FlatApply(ns, outs, data)[i] == data[Offset(ns, i)..Offset(ns, i) + ns[i]]
    {
      ShareIsSlice(ns, i, data);
      AssignsShare(outs[i], ns[i], Share(ns, i, data));
      assert FlatApply(ns, outs, data)[i] == Share(ns, i, data);
    }
  }

  // After any number of payloads the last full one is what the buffers hold.
  lemma LastPayloadCounts(ns: seq<nat>, outs: seq<bytes>, payloads: seq<bytes>, p: bytes, i: nat)
    requires Bounded(ns, outs) && Total(ns) <= |p| && i < |ns|
    ensures Offset(ns, i) + ns[i] <= |p|
    ensures ApplyAll(false, ns, outs, payloads + [p])[i] == p[Offset(ns, i)..Offset(ns, i) + ns[i]]
  {
    hide Offset, FlatApply;
    ApplyAllSnoc(false, ns, outs, payloads, p);
    AllKeepsBounded(ns, outs, payloads);
    FullPayload(ns, ApplyAll(false, ns, outs, payloads), p);
  }

  lemma {:induction false} AllKeepsBounded(ns: seq<nat>, outs: seq<bytes>, payloads: seq<bytes>)
    requires Bounded(ns, outs)
    ensures Bounded(ns, ApplyAll(false, ns, outs, payloads))
  {
    hide Apply;
    if payloads != [] {
      var front := payloads[..|payloads| - 1];
      AllKeepsBounded(ns, outs, front);
      ApplyKeepsBounded(false, ns, ApplyAll(false, ns, outs, front), payloads[|payloads| - 1]);
    }
  }

  lemma {:induction false} LastNonEmpty(ns: seq<nat>, n: nat, m: nat)
    requires n <= |ns|
    requires forall i {:trigger Offset(ns, i)} | 0 <= i < n :: ns[i] == 0 || Offset(ns, i) + ns[i] <= m
    ensures Offset(ns, n) <= m
  {
    if n > 0 { LastNonEmpty(ns, n - 1, m); }
  }

  // A flat payload keeps every buffer's length iff it is at least as long as the configured total.
  lemma LengthsKeptIff(ns: seq<nat>, outs: seq<bytes>, data: bytes)
    requires Sized(ns, outs)
    ensures Sized(ns, FlatApply(ns, outs, data)) <==> Total(ns) <= |data|
  {
    if Total(ns) <= |data| {
      FullPayload(ns, outs, data);
    } else if Sized(ns, FlatApply(ns, outs, data)) {
      forall i | 0 <= i < |ns| ensures ns[i] == 0 || Offset(ns, i) + ns[i] <= |data| {
        hide Offset;
        AssignsShare(outs[i], ns[i], Share(ns, i, data));
        assert |Share(ns, i, data)| == ns[i];
      }
      LastNonEmpty(ns, |ns|, |data|);
    }
  }

  // The short payload [1] shrinks a four-byte buffer to one byte.
  lemma ShortPayloadShrinks()
    ensures FlatApply([4], [[0, 0, 0, 0]], [1]) == [[1]]
  {
    assert Slice([1], 0, 4) == [1];
    assert FlatApply([4], [[0, 0, 0, 0]], [1])[0] == [1];
  }

  // ---------- framed payloads, one block per drive ----------

  // Blocks with drive numbers below `m` do not touch drive i >= m.
  lemma {:induction false} ApplyBlocksByDrive(outs: seq<bytes>, datas: seq<bytes>, from: nat)
    requires from <= |datas| <= 0x100
    ensures var r := ApplyBlocks(outs, Numbered(datas)[from..]);
            forall i | 0 <= i < |outs| ::
              r[i] == if from <= i < |datas| then SetHead(outs[i], datas[i]) else outs[i]
    decreases |datas| - from
  {
    var bs := Numbered(datas)[from..];
    if from < |datas| {
      assert bs[0] == Block(from, datas[from]) && bs[1..] == Numbered(datas)[from + 1..];
      ApplyBlocksByDrive(ApplyBlock(outs, bs[0]), datas, from + 1);
    }
  }

  // The gateway recovers each drive's bytes from a framed payload of up to 256 drives, whatever
  // the payload contains.
  lemma FramedRoundTrip(ns: seq<nat>, outs: seq<bytes>, datas: seq<bytes>)
    requires |outs| == |ns| && |datas| <= 0x100
    requires Printables(Numbered(datas))
    ensures var r := Apply(true, ns, outs, PrintAll(Numbered(datas)));
            && (forall i | 0 <= i < |outs| :: r[i] == if i < |datas| then SetHead(outs[i], datas[i]) else outs[i])
            && (forall i | 0 <= i < |outs| && i < |datas| && |outs[i]| == |datas[i]| :: r[i] == datas[i])
  {
    PrintedRoundTrip(Numbered(datas));
    ApplyBlocksByDrive(outs, datas, 0);
    assert Numbered(datas)[0..] == Numbered(datas);
  }
}
