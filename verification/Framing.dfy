// The per-drive block grammar [AA 55][drive][length BE][data][55 AA] shared by the gateway and
// its client, and what a resynchronising reader makes of an arbitrary byte string.
module Framing {
  import opened Bytes

  const FRAME_OVERHEAD := 7

  datatype Block = Block(drive: byte, data: bytes)

  // ---------- recognising a block ----------

  predicate ValidAt(s: bytes, pos: nat)
  {
    && pos + FRAME_OVERHEAD <= |s|
    && s[pos] == 0xAA && s[pos + 1] == 0x55
    && var de := pos + 5 + GetBe16(s, pos + 3);
       de + 2 <= |s| && s[de] == 0x55 && s[de + 1] == 0xAA
  }

  function EndAt(s: bytes, pos: nat): nat
    requires ValidAt(s, pos)
  {
    pos + FRAME_OVERHEAD + GetBe16(s, pos + 3)
  }

  function BlockAt(s: bytes, pos: nat): Block
    requires ValidAt(s, pos)
  {
    Block(s[pos + 2], s[pos + 5..EndAt(s, pos) - 2])
  }

  // The block starts the reader stops at when it scans from `pos`
  function Starts(s: bytes, pos: nat): (starts: seq<nat>)
    ensures forall k | 0 <= k < |starts| :: ValidAt(s, starts[k])
    decreases |s| - pos
  {
    if pos + FRAME_OVERHEAD > |s| then []
    else if ValidAt(s, pos) then [pos] + Starts(s, EndAt(s, pos))
    else Starts(s, pos + 1)
  }

  function BlocksAt(s: bytes, starts: seq<nat>): seq<Block>
    requires forall k | 0 <= k < |starts| :: ValidAt(s, starts[k])
  {
    seq(|starts|, k requires 0 <= k < |starts| => BlockAt(s, starts[k]))
  }

  function Blocks(s: bytes, pos: nat): seq<Block> { BlocksAt(s, Starts(s, pos)) }

  lemma BlocksStep(s: bytes, pos: nat)
    requires pos + FRAME_OVERHEAD <= |s|
    ensures ValidAt(s, pos) ==> Blocks(s, pos) == [BlockAt(s, pos)] + Blocks(s, EndAt(s, pos))
    ensures !ValidAt(s, pos) ==> Blocks(s, pos) == Blocks(s, pos + 1)
  {
    hide ValidAt;
  }

  lemma Pair(s: bytes, i: nat, a: byte, b: byte)
    requires i + 2 <= |s|
    ensures s[i..i + 2] == [a, b] <==> s[i] == a && s[i + 1] == b
  {
    assert s[i..i + 2] == [s[i], s[i + 1]];
  }

  // The tests of the parsers, which compare two-byte slices, decide validity.
  lemma ValidIff(s: bytes, pos: nat)
    requires pos + FRAME_OVERHEAD <= |s|
    ensures var de := pos + 5 + GetBe16(s, pos + 3);
            && (ValidAt(s, pos) <==> s[pos..pos + 2] == [0xAA, 0x55] && de + 2 <= |s| && s[de..de + 2] == [0x55, 0xAA])
            && (ValidAt(s, pos) ==> EndAt(s, pos) == de + 2 && BlockAt(s, pos) == Block(s[pos + 2], s[pos + 5..de]))
  {
    var de := pos + 5 + GetBe16(s, pos + 3);
    Pair(s, pos, 0xAA, 0x55);
    if de + 2 <= |s| { Pair(s, de, 0x55, 0xAA); }
  }

  // ---------- the greedy leftmost chain, declaratively ----------

  ghost predicate NoStart(s: bytes, from: nat, to: nat)
  {
    forall p: nat | from <= p < to :: !ValidAt(s, p)
  }

  // `starts` are valid, non-overlapping, in order, and no valid block starts in a gap.
  ghost predicate GreedyChain(s: bytes, from: nat, starts: seq<nat>)
    decreases |starts|
  {
    if starts == [] then NoStart(s, from, |s|)
    else
      && from <= starts[0] && NoStart(s, from, starts[0])
      && ValidAt(s, starts[0]) && GreedyChain(s, EndAt(s, starts[0]), starts[1..])
  }

  lemma {:induction false} StartsIsGreedy(s: bytes, pos: nat)
    ensures GreedyChain(s, pos, Starts(s, pos))
    decreases |s| - pos
  {
    if pos + FRAME_OVERHEAD > |s| {
      return;
    }
    hide ValidAt;
    if ValidAt(s, pos) {
      StartsIsGreedy(s, EndAt(s, pos));
    } else {
      StartsIsGreedy(s, pos + 1);
    }
  }

  lemma {:induction false} GreedyIsStarts(s: bytes, pos: nat, starts: seq<nat>)
    requires GreedyChain(s, pos, starts)
    ensures starts == Starts(s, pos)
    decreases |s| - pos
  {
    if pos + FRAME_OVERHEAD > |s| {
      return;
    }
    hide ValidAt;
    if ValidAt(s, pos) {
      assert starts[0] == pos;
      GreedyIsStarts(s, EndAt(s, pos), starts[1..]);
    } else {
      GreedyIsStarts(s, pos + 1, starts);
    }
  }

  // The reader's chain is the greedy leftmost chain of valid blocks, and the only one.
  lemma ReaderIsGreedy(s: bytes, pos: nat, starts: seq<nat>)
    ensures GreedyChain(s, pos, starts) <==> starts == Starts(s, pos)
  {
    StartsIsGreedy(s, pos);
    if GreedyChain(s, pos, starts) { GreedyIsStarts(s, pos, starts); }
  }

  // ---------- printing blocks ----------

  predicate Printable(b: Block) { |b.data| < 0x1_0000 }

  predicate Printables(bs: seq<Block>) { forall k | 0 <= k < |bs| :: Printable(bs[k]) }

  function Print(b: Block): (s: bytes)
    requires Printable(b)
    ensures |s| == FRAME_OVERHEAD + |b.data|
  {
    [0xAA, 0x55, b.drive] + Be16(|b.data|) + b.data + [0x55, 0xAA]
  }

  function PrintAll(bs: seq<Block>): bytes
    requires Printables(bs)
  {
    if bs == [] then [] else Print(bs[0]) + PrintAll(bs[1..])
  }

  // Where the blocks of PrintAll(bs) start when it is placed at `at`
  function Positions(bs: seq<Block>, at: nat): seq<nat>
  {
    if bs == [] then [] else [at] + Positions(bs[1..], at + FRAME_OVERHEAD + |bs[0].data|)
  }

  // d lies in s at pos
  predicate LiesAt(s: bytes, pos: nat, d: bytes)
  {
    pos + |d| <= |s| && s[pos..pos + |d|] == d
  }

  lemma PrintedIsValid(s: bytes, pos: nat, b: Block)
    requires Printable(b) && LiesAt(s, pos, Print(b))
    ensures ValidAt(s, pos) && BlockAt(s, pos) == b && EndAt(s, pos) == pos + |Print(b)|
  {
    var p, n := Print(b), |b.data|;
    assert forall i | 0 <= i < |p| :: s[pos + i] == p[i];
    assert p[3..5] == Be16(n) && p[5..5 + n] == b.data;
    assert p[5 + n] == 0x55 && p[6 + n] == 0xAA;
    assert s[pos + 3..pos + 5] == p[3..5];
    ReadsBack16(s, pos + 3, n);
    assert s[pos + 5..pos + 5 + n] == p[5..5 + n];
  }

  lemma LiesAtSplit(s: bytes, pos: nat, d: bytes, e: bytes)
    requires LiesAt(s, pos, d + e)
    ensures LiesAt(s, pos, d) && LiesAt(s, pos + |d|, e)
  {
    var w := s[pos..pos + |d + e|];
    assert s[pos..pos + |d|] == w[..|d|] == d;
    assert s[pos + |d|..pos + |d| + |e|] == w[|d|..] == e;
  }

  lemma ReadsOne(s: bytes, pos: nat, b: Block, rest: bytes)
    requires Printable(b) && LiesAt(s, pos, Print(b) + rest)
    ensures var at := pos + |Print(b)|;
            && LiesAt(s, at, rest)
            && Starts(s, pos) == [pos] + Starts(s, at)
            && Blocks(s, pos) == [b] + Blocks(s, at)
  {
    LiesAtSplit(s, pos, Print(b), rest);
    PrintedIsValid(s, pos, b);
    BlocksStep(s, pos);
  }

  // Printed blocks are read one after the other, whatever their payload looks like.
  lemma {:induction false} StartsOfPrinted(s: bytes, pos: nat, bs: seq<Block>, end: nat)
    requires Printables(bs) && LiesAt(s, pos, PrintAll(bs)) && end == pos + |PrintAll(bs)|
    ensures Starts(s, pos) == Positions(bs, pos) + Starts(s, end)
    decreases |bs|
  {
    hide ValidAt;
    if bs == [] {
      assert [] + Starts(s, end) == Starts(s, end);
    } else {
      var b, rest := bs[0], bs[1..];
      var at := pos + |Print(b)|;
      assert LiesAt(s, at, PrintAll(rest)) && Starts(s, pos) == [pos] + Starts(s, at) by {
        ReadsOne(s, pos, b, PrintAll(rest));
      }
      StartsOfPrinted(s, at, rest, end);
      assert Positions(bs, pos) == [pos] + Positions(rest, at);
      Assoc([pos], Positions(rest, at), Starts(s, end));
    }
  }

  lemma {:induction false} ReadsPrinted(s: bytes, pos: nat, bs: seq<Block>, end: nat)
    requires Printables(bs) && LiesAt(s, pos, PrintAll(bs)) && end == pos + |PrintAll(bs)|
    ensures Blocks(s, pos) == bs + Blocks(s, end)
    decreases |bs|
  {
    hide ValidAt, Print, BlocksAt, Starts;
    if bs == [] {
      assert [] + Blocks(s, end) == Blocks(s, end);
    } else {
      var b, rest := bs[0], bs[1..];
      ReadsOne(s, pos, b, PrintAll(rest));
      ReadsPrinted(s, pos + |Print(b)|, rest, end);
      Assoc([b], rest, Blocks(s, end));
      assert [b] + rest == bs;
    }
  }

  // ---------- resynchronisation ----------

  lemma SkipsJunk(s: bytes, from: nat, end: nat)
    requires from <= end && NoStart(s, from, end)
    ensures Starts(s, from) == Starts(s, end)
    decreases end - from
  {
    if from < end { SkipsJunk(s, from + 1, end); }
  }

  lemma FirstStart(s: bytes, from: nat, end: nat) returns (p: nat)
    requires from <= end && !NoStart(s, from, end)
    ensures from <= p < end && ValidAt(s, p) && NoStart(s, from, p)
    decreases end - from
  {
    if ValidAt(s, from) {
      p := from;
    } else {
      p := FirstStart(s, from + 1, end);
    }
  }

  // Well-formed blocks, junk bytes, well-formed blocks
  function Damaged(before: seq<Block>, junk: bytes, after: seq<Block>): bytes
    requires Printables(before) && Printables(after)
  {
    PrintAll(before) + junk + PrintAll(after)
  }

  lemma ReadsDamaged(before: seq<Block>, junk: bytes, after: seq<Block>, from: nat, end: nat)
    requires Printables(before) && Printables(after)
    requires from == |PrintAll(before)| && end == from + |junk|
    ensures var s := Damaged(before, junk, after);
            && Starts(s, 0) == Positions(before, 0) + Starts(s, from)
            && Blocks(s, 0) == before + Blocks(s, from)
            && Starts(s, end) == Positions(after, end)
            && Blocks(s, end) == after
  {
    var s := Damaged(before, junk, after);
    var p, q := PrintAll(before), PrintAll(after);
    assert LiesAt(s, 0, p);
    assert LiesAt(s, end, q);
    StartsOfPrinted(s, 0, before, from);
    ReadsPrinted(s, 0, before, from);
    StartsOfPrinted(s, end, after, |s|);
    ReadsPrinted(s, end, after, |s|);
    assert Starts(s, |s|) == [] && Blocks(s, |s|) == [];
    assert Positions(after, end) + [] == Positions(after, end) && after + [] == after;
  }

  // The reader stops at exactly the starts of the blocks before and after the junk iff no valid
  // block of the whole stream starts inside the junk.
  lemma ResyncIff(before: seq<Block>, junk: bytes, after: seq<Block>)
    requires Printables(before) && Printables(after)
    ensures var s := Damaged(before, junk, after);
            var from := |PrintAll(before)|;
            Starts(s, 0) == Positions(before, 0) + Positions(after, from + |junk|)
            <==> NoStart(s, from, from + |junk|)
  {
    hide ValidAt, Damaged, Starts, Positions, PrintAll, NoStart;
    var s, from := Damaged(before, junk, after), |PrintAll(before)|;
    var end := from + |junk|;
    ReadsDamaged(before, junk, after, from, end);
    if NoStart(s, from, end) {
      SkipsJunk(s, from, end);
    } else {
      var p := FirstStart(s, from, end);
      SkipsJunk(s, from, p);
      StartsHere(s, p);
      FirstPosition(after, end);
      SuffixesDiffer(Positions(before, 0), Starts(s, from), Positions(after, end), p, end);
    }
  }

  lemma StartsHere(s: bytes, p: nat)
    requires ValidAt(s, p)
    ensures Starts(s, p) != [] && Starts(s, p)[0] == p
  {
  }

  lemma FirstPosition(bs: seq<Block>, at: nat)
    requires Printables(bs)
    ensures Positions(bs, at) != [] ==> Positions(bs, at)[0] == at
  {
  }

  lemma SuffixesDiffer(head: seq<nat>, a: seq<nat>, b: seq<nat>, p: nat, q: nat)
    requires a != [] && a[0] == p != q && (b != [] ==> b[0] == q)
    ensures head + a != head + b
  {
    assert (head + a)[|head|] == p;
    if b != [] { assert (head + b)[|head|] == q; }
  }

  // Then every block before and after is delivered, and nothing else.
  lemma ResyncDelivers(before: seq<Block>, junk: bytes, after: seq<Block>)
    requires Printables(before) && Printables(after)
    requires NoStart(Damaged(before, junk, after), |PrintAll(before)|, |PrintAll(before)| + |junk|)
    ensures Blocks(Damaged(before, junk, after), 0) == before + after
  {
    hide ValidAt, Damaged;
    ReadsDamaged(before, junk, after, |PrintAll(before)|, |PrintAll(before)| + |junk|);
    SkipsJunk(Damaged(before, junk, after), |PrintAll(before)|, |PrintAll(before)| + |junk|);
  }

  // Junk without the byte 0xAA starts no block, so a block that lost its markers costs only itself.
  lemma JunkWithoutSof(before: seq<Block>, junk: bytes, after: seq<Block>)
    requires Printables(before) && Printables(after)
    requires 0xAA !in junk
    ensures Blocks(Damaged(before, junk, after), 0) == before + after
  {
    var s, from := Damaged(before, junk, after), |PrintAll(before)|;
    forall p: nat | from <= p < from + |junk| ensures !ValidAt(s, p) {
      assert s[p] == junk[p - from];
      assert s[p] in junk;
    }
    ResyncDelivers(before, junk, after);
  }

  lemma PrintedRoundTrip(bs: seq<Block>)
    requires Printables(bs)
    ensures Blocks(PrintAll(bs), 0) == bs
  {
    assert bs + [] == bs;
    JunkWithoutSof(bs, [], []);
    assert Damaged(bs, [], []) == PrintAll(bs);
  }

  // ---------- one block per drive, numbered in config order ----------

  function Numbered(datas: seq<bytes>): (bs: seq<Block>)
    ensures |bs| == |datas|
    ensures forall i | 0 <= i < |datas| :: bs[i] == Block(i % 0x100, datas[i])
  {
    seq(|datas|, i requires 0 <= i < |datas| => Block(i % 0x100, datas[i]))
  }

  // A printed block byte by byte
  lemma PrintedBytes(drive: byte, d: bytes)
    requires |d| < 0x1_0000
    ensures var s, n := Print(Block(drive, d)), |d|;
            && |s| == n + 7 && s[0] == 0xAA && s[1] == 0x55 && s[2] == drive
            && s[3] as int * 256 + s[4] == n && s[5..n + 5] == d && s[n + 5] == 0x55 && s[n + 6] == 0xAA
  {
  }

  lemma PrintIs(drive: byte, d: bytes)
    requires |d| < 0x1_0000
    ensures Print(Block(drive, d)) == [0xAA, 0x55] + [drive] + Be16(|d|) + d + [0x55, 0xAA]
  {
    assert [0xAA, 0x55, drive] == [0xAA, 0x55] + [drive];
  }

  lemma PrintAllSnoc(bs: seq<Block>, b: Block)
    requires Printable(b) && Printables(bs)
    ensures PrintAll(bs + [b]) == PrintAll(bs) + Print(b)
  {
    if bs == [] {
      assert bs + [b] == [b] && [b][1..] == [];
    } else {
      assert (bs + [b])[1..] == bs[1..] + [b];
      PrintAllSnoc(bs[1..], b);
    }
  }
}
