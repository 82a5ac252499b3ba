// The output cyclic frame: what writing every data, IOPS and IOCS byte at the running
// configuration's offsets produces, and the in-place IOCS writer.
module OutputFrame {
  import opened Bytes
  import opened IocrLayout
  import opened IocrAgreement

  // ---------- writes into a frame buffer ----------

  datatype Write = Write(start: nat, data: bytes)
  {
    function End(): nat { start + |data| }
    predicate Hits(p: nat) { start <= p < End() }
  }

  ghost predicate Disjoint(a: Write, b: Write)
  {
    a.End() <= b.start || b.End() <= a.start
  }

  ghost predicate PairwiseDisjoint(ws: seq<Write>)
  {
    forall i, j | 0 <= i < j < |ws| :: Disjoint(ws[i], ws[j])
  }

  ghost predicate Within(ws: seq<Write>, n: nat)
  {
    forall w | w in ws :: w.End() <= n
  }

  function Put(frame: bytes, w: Write): (r: bytes)
    requires w.End() <= |frame|
    ensures |r| == |frame|
  {
    frame[..w.start] + w.data + frame[w.End()..]
  }

  function PutAll(frame: bytes, ws: seq<Write>): (r: bytes)
    requires Within(ws, |frame|)
    ensures |r| == |frame|
  {
    if ws == [] then frame else Put(PutAll(frame, ws[..|ws| - 1]), ws[|ws| - 1])
  }

  lemma PutByteAt(frame: bytes, w: Write, p: nat)
    requires w.End() <= |frame| && p < |frame|
    ensures Put(frame, w)[p] == if w.Hits(p) then w.data[p - w.start] else frame[p]
  {
  }

  // With pairwise disjoint writes each byte is that of the one write that hits it, if any.
  lemma {:induction false} PutAllByte(frame: bytes, ws: seq<Write>, p: nat)
    requires Within(ws, |frame|) && PairwiseDisjoint(ws) && p < |frame|
    ensures forall k | 0 <= k < |ws| && ws[k].Hits(p) :: PutAll(frame, ws)[p] == ws[k].data[p - ws[k].start]
    ensures (forall k | 0 <= k < |ws| :: !ws[k].Hits(p)) ==> PutAll(frame, ws)[p] == frame[p]
  {
    hide Put;
    if ws != [] {
      var n := |ws| - 1;
      assert forall w | w in ws[..n] :: w in ws;
      PutAllByte(frame, ws[..n], p);
      PutByteAt(PutAll(frame, ws[..n]), ws[n], p);
      forall k | 0 <= k < n && ws[k].Hits(p) ensures !ws[n].Hits(p) {
        assert Disjoint(ws[k], ws[n]);
      }
    }
  }

  // Any order of the same disjoint writes gives the same frame.
  lemma OrderIrrelevant(frame: bytes, ws: seq<Write>, order: seq<Write>)
    requires Within(ws, |frame|) && PairwiseDisjoint(ws)
    requires Within(order, |frame|) && PairwiseDisjoint(order)
    requires multiset(order) == multiset(ws)
    ensures PutAll(frame, order) == PutAll(frame, ws)
  {
    hide PutAll, Write.Hits, PairwiseDisjoint;
    assert forall w :: w in order <==> w in multiset(order);
    assert forall w :: w in ws <==> w in multiset(ws);
    forall p: nat | p < |frame| ensures PutAll(frame, order)[p] == PutAll(frame, ws)[p] {
      PutAllByte(frame, ws, p);
      PutAllByte(frame, order, p);
      if w :| w in ws && w.Hits(p) {
        assert w in order;
      } else {
        assert forall k | 0 <= k < |order| :: order[k] in order && !order[k].Hits(p);
      }
    }
  }

  lemma Twice(ws: seq<Write>, i: nat, j: nat)
    requires i < j < |ws| && ws[i] == ws[j]
    ensures multiset(ws)[ws[i]] >= 2
  {
    assert ws == ws[..i] + [ws[i]] + ws[i + 1..j] + [ws[j]] + ws[j + 1..];
  }

  // A permutation of pairwise disjoint non-empty writes is pairwise disjoint.
  lemma {:induction false} PermutationDisjoint(ws: seq<Write>, order: seq<Write>)
    requires PairwiseDisjoint(ws) && multiset(order) == multiset(ws)
    requires forall k | 0 <= k < |ws| :: ws[k].data != []
    ensures PairwiseDisjoint(order)
  {
    forall i, j | 0 <= i < j < |order| ensures Disjoint(order[i], order[j]) {
      var a, b := order[i], order[j];
      assert a in multiset(order) && b in multiset(order);
      assert a in ws && b in ws;
      if a == b {
        Twice(order, i, j);
        OnlyOnce(ws, a);
      } else {
        var k, m :| 0 <= k < |ws| && 0 <= m < |ws| && ws[k] == a && ws[m] == b;
        assert k < m ==> Disjoint(ws[k], ws[m]);
        assert m < k ==> Disjoint(ws[m], ws[k]);
      }
    }
  }

  lemma {:induction false} OnlyOnce(ws: seq<Write>, a: Write)
    requires PairwiseDisjoint(ws) && a.data != []
    ensures multiset(ws)[a] <= 1
  {
    if ws != [] {
      var front, last := ws[..|ws| - 1], ws[|ws| - 1];
      assert ws == front + [last];
      OnlyOnce(front, a);
      if last == a {
        forall i | 0 <= i < |front| ensures front[i] != a {
          assert Disjoint(ws[i], ws[|ws| - 1]);
        }
        assert a !in front;
      }
    }
  }

  // ---------- chunks packed without gap ----------

  function Pack(chunks: seq<bytes>): seq<Write>
  {
    if chunks == [] then []
    else
      var front := chunks[..|chunks| - 1];
      Pack(front) + [Write(|Flatten(front)|, chunks[|chunks| - 1])]
  }

  lemma PackSnoc(chunks: seq<bytes>, d: bytes)
    ensures Pack(chunks + [d]) == Pack(chunks) + [Write(|Flatten(chunks)|, d)]
    ensures Flatten(chunks + [d]) == Flatten(chunks) + d
  {
    assert (chunks + [d])[..|chunks|] == chunks;
    FlattenSnoc(chunks, d);
  }

  lemma PackTwo(chunks: seq<bytes>, x: Write, y: Write)
    requires x.start == |Flatten(chunks)| && y.start == x.End()
    ensures Pack(chunks + [x.data, y.data]) == Pack(chunks) + [x] + [y]
  {
    PackSnoc(chunks, x.data);
    PackSnoc(chunks + [x.data], y.data);
    assert chunks + [x.data, y.data] == chunks + [x.data] + [y.data];
  }

  ghost predicate NonEmpty(chunks: seq<bytes>) { forall k | 0 <= k < |chunks| :: chunks[k] != [] }

  lemma {:induction false} PackDisjoint(chunks: seq<bytes>)
    requires NonEmpty(chunks)
    ensures PairwiseDisjoint(Pack(chunks)) && Within(Pack(chunks), |Flatten(chunks)|)
    ensures forall k | 0 <= k < |Pack(chunks)| :: Pack(chunks)[k].data != []
  {
    if chunks != [] {
      var n := |chunks| - 1;
      assert chunks == chunks[..n] + [chunks[n]];
      PackSnoc(chunks[..n], chunks[n]);
      PackDisjoint(chunks[..n]);
      var ws, front := Pack(chunks), Pack(chunks[..n]);
      forall i, j | 0 <= i < j < |ws| ensures Disjoint(ws[i], ws[j]) {
        assert ws[i] == front[i] && front[i] in front;
      }
    }
  }

  lemma PutAppends(image: bytes, d: bytes, m: nat)
    requires |d| <= m
    ensures Put(image + Zeros(m), Write(|image|, d)) == image + d + Zeros(m - |d|)
  {
  }

  lemma {:induction false} PackImage(chunks: seq<bytes>, n: nat)
    requires |Flatten(chunks)| <= n && Within(Pack(chunks), n)
    ensures PutAll(Zeros(n), Pack(chunks)) == Flatten(chunks) + Zeros(n - |Flatten(chunks)|)
  {
    hide Put, Flatten;
    if chunks == [] {
      FlattenNone();
      assert Zeros(n) == [] + Zeros(n);
    } else {
      var front, d := chunks[..|chunks| - 1], chunks[|chunks| - 1];
      assert chunks == front + [d];
      PackSnoc(front, d);
      assert forall w | w in Pack(front) :: w in Pack(chunks);
      PackImage(front, n);
      assert Pack(chunks)[..|Pack(front)|] == Pack(front);
      PutAppends(Flatten(front), d, n - |Flatten(front)|);
    }
  }

  // Chunks packed without gap and written in any order spell their concatenation.
  lemma PackedInAnyOrder(chunks: seq<bytes>, order: seq<Write>, n: nat)
    requires NonEmpty(chunks) && |Flatten(chunks)| <= n
    requires multiset(order) == multiset(Pack(chunks))
    ensures Within(order, n)
    ensures PutAll(Zeros(n), order) == Flatten(chunks) + Zeros(n - |Flatten(chunks)|)
  {
    PackDisjoint(chunks);
    forall w | w in order ensures w.End() <= n {
      assert w in multiset(order);
      assert w in Pack(chunks);
    }
    PermutationDisjoint(Pack(chunks), order);
    OrderIrrelevant(Zeros(n), Pack(chunks), order);
    PackImage(chunks, n);
  }

  // ---------- the frame of one output cycle ----------

  // The process data of one cycle, per (slot, subslot)
  type Payload = map<(nat, nat), bytes>

  ghost predicate Complete(slots: seq<Submodule>, payload: Payload)
  {
    forall s | s in slots && s.HasOutput() ::
      (s.slot, s.subslot) in payload && |payload[(s.slot, s.subslot)]| == s.outputLength
  }

  function DataOf(payload: Payload, slot: nat, subslot: nat): bytes
  {
    if (slot, subslot) in payload then payload[(slot, subslot)] else []
  }

  // Segment of a sub-module: its data and IOPS, or its IOCS when it provides nothing
  function Segments(slots: seq<Submodule>, payload: Payload, iops: byte, iocs: byte): bytes
  {
    if slots == [] then []
    else
      var s := Last(slots);
      Segments(Front(slots), payload, iops, iocs)
      + if s.HasOutput() then DataOf(payload, s.slot, s.subslot) + [iops] else [iocs]
  }

  function TrailingStatus(slots: seq<Submodule>, iocs: byte): bytes
  {
    seq(|WithOutput(slots, true)|, _ => iocs)
  }

  // The writes a running configuration asks for: data and IOPS of an object with data, else
  // the IOCS byte
  function RunningWrites(objects: seq<IoDataObject>, payload: Payload, iops: byte, iocs: byte): seq<Write>
  {
    if objects == [] then []
    else
      var o := objects[|objects| - 1];
      RunningWrites(objects[..|objects| - 1], payload, iops, iocs)
      + if o.dataLength == 0 then [Write(o.iocsOffset, [iocs])]
        else [Write(o.frameOffset, DataOf(payload, o.slot, o.subslot)), Write(o.iopsOffset, [iops])]
  }

  function ObjectWrites(objects: seq<DataObject>, payload: Payload, iops: byte): seq<Write>
  {
    if objects == [] then []
    else
      var o := objects[|objects| - 1];
      ObjectWrites(objects[..|objects| - 1], payload, iops)
      + [Write(o.offset, DataOf(payload, o.slot, o.subslot)), Write(o.offset + o.length, [iops])]
  }

  function IocsWrites(cs: seq<Iocs>, iocs: byte): seq<Write>
  {
    if cs == [] then [] else IocsWrites(cs[..|cs| - 1], iocs) + [Write(cs[|cs| - 1].offset, [iocs])]
  }

  lemma RunningSnoc(os: seq<IoDataObject>, o: IoDataObject, payload: Payload, iops: byte, iocs: byte)
    ensures RunningWrites(os + [o], payload, iops, iocs)
         == RunningWrites(os, payload, iops, iocs)
            + if o.dataLength == 0 then [Write(o.iocsOffset, [iocs])]
              else [Write(o.frameOffset, DataOf(payload, o.slot, o.subslot)), Write(o.iopsOffset, [iops])]
  {
    assert (os + [o])[..|os|] == os;
  }

  function RunningObject(o: DataObject): IoDataObject
  {
    IoDataObject(o.slot, o.subslot, o.offset, o.length, o.offset + o.length, 0)
  }

  function RunningIocs(c: Iocs): IoDataObject { IoDataObject(c.slot, c.subslot, 0, 0, 0, c.offset) }

  lemma {:induction false} RunningObjectWrites(os: seq<DataObject>, running: seq<IoDataObject>,
                                               payload: Payload, iops: byte, iocs: byte)
    requires |running| == |os| && forall k | 0 <= k < |os| :: os[k].length > 0 && running[k] == RunningObject(os[k])
    ensures RunningWrites(running, payload, iops, iocs) == ObjectWrites(os, payload, iops)
    decreases |os|
  {
    hide DataOf;
    if os != [] {
      var n := |os| - 1;
      RunningObjectWrites(os[..n], running[..n], payload, iops, iocs);
      assert running == running[..n] + [running[n]];
      RunningSnoc(running[..n], running[n], payload, iops, iocs);
    }
  }

  lemma {:induction false} RunningIocsWrites(front: seq<IoDataObject>, cs: seq<Iocs>, running: seq<IoDataObject>,
                                             payload: Payload, iops: byte, iocs: byte)
    requires |running| == |cs| && forall k | 0 <= k < |cs| :: running[k] == RunningIocs(cs[k])
    ensures RunningWrites(front + running, payload, iops, iocs)
         == RunningWrites(front, payload, iops, iocs) + IocsWrites(cs, iocs)
    decreases |cs|
  {
    hide RunningWrites;
    if cs == [] {
      assert front + running == front;
      assert RunningWrites(front, payload, iops, iocs) + [] == RunningWrites(front, payload, iops, iocs);
    } else {
      var n := |cs| - 1;
      RunningIocsWrites(front, cs[..n], running[..n], payload, iops, iocs);
      assert front + running == front + running[..n] + [running[n]];
      RunningSnoc(front + running[..n], running[n], payload, iops, iocs);
      Assoc(RunningWrites(front, payload, iops, iocs), IocsWrites(cs[..n], iocs), [Write(cs[n].offset, [iocs])]);
    }
  }

  // The same writes in frame order
  function ProviderChunks(slots: seq<Submodule>, payload: Payload, iops: byte, iocs: byte): seq<bytes>
  {
    if slots == [] then []
    else
      var s := Last(slots);
      ProviderChunks(Front(slots), payload, iops, iocs)
      + if s.HasOutput() then [DataOf(payload, s.slot, s.subslot), [iops]] else [[iocs]]
  }

  function TrailingChunks(slots: seq<Submodule>, iocs: byte): seq<bytes>
  {
    if slots == [] then []
    else TrailingChunks(Front(slots), iocs) + if Last(slots).HasOutput() then [[iocs]] else []
  }

  // ws holds the writes of a and b, in some order
  ghost predicate Shuffles(ws: seq<Write>, a: seq<Write>, b: seq<Write>)
  {
    multiset(ws) == multiset(a) + multiset(b)
  }

  lemma ShufflesLeft(ws: seq<Write>, a: seq<Write>, b: seq<Write>, x: Write, y: Write)
    requires Shuffles(ws, a, b)
    ensures Shuffles(ws + [x] + [y], a + [x, y], b)
  {
    assert a + [x, y] == a + [x] + [y];
  }

  lemma ShufflesRight(ws: seq<Write>, a: seq<Write>, b: seq<Write>, x: Write)
    requires Shuffles(ws, a, b)
    ensures Shuffles(ws + [x], a, b + [x])
  {
  }

  lemma {:induction false} ProviderChunksSpell(slots: seq<Submodule>, payload: Payload, iops: byte, iocs: byte)
    requires Complete(slots, payload)
    ensures var chunks := ProviderChunks(slots, payload, iops, iocs);
            && Flatten(chunks) == Segments(slots, payload, iops, iocs)
            && |Flatten(chunks)| == OutputProviders(slots).used
            && NonEmpty(chunks)
  {
    if slots != [] {
      var s := Last(slots);
      assert forall t | t in Front(slots) :: t in slots;
      assert s in slots;
      ProviderChunksSpell(Front(slots), payload, iops, iocs);
      var chunks := ProviderChunks(Front(slots), payload, iops, iocs);
      if s.HasOutput() {
        var d := DataOf(payload, s.slot, s.subslot);
        FlattenSnoc(chunks, d);
        FlattenSnoc(chunks + [d], [iops]);
        assert ProviderChunks(slots, payload, iops, iocs) == chunks + [d] + [[iops]];
        assert Flatten(chunks) + d + [iops] == Flatten(chunks) + (d + [iops]);
      } else {
        FlattenSnoc(chunks, [iocs]);
      }
    }
  }

  lemma OrderObject(l: CrLayout, chunks: seq<bytes>, s: Submodule, payload: Payload, iops: byte, b: seq<Write>)
    requires Shuffles(Pack(chunks), ObjectWrites(l.objects, payload, iops), b)
    requires |Flatten(chunks)| == l.used && |DataOf(payload, s.slot, s.subslot)| == s.outputLength
    ensures Shuffles(Pack(chunks + [DataOf(payload, s.slot, s.subslot), [iops]]),
                     ObjectWrites(l.AddObject(s, s.outputLength).objects, payload, iops), b)
  {
    var o := DataObject(s.slot, s.subslot, l.used, s.outputLength);
    var x, y := Write(o.offset, DataOf(payload, o.slot, o.subslot)), Write(o.offset + o.length, [iops]);
    PackTwo(chunks, x, y);
    ObjectWritesSnoc(l.objects, o, payload, iops);
    ShufflesLeft(Pack(chunks), ObjectWrites(l.objects, payload, iops), b, x, y);
  }

  lemma OrderIocs(l: CrLayout, chunks: seq<bytes>, s: Submodule, a: seq<Write>, iocs: byte)
    requires Shuffles(Pack(chunks), a, IocsWrites(l.iocs, iocs)) && |Flatten(chunks)| == l.used
    ensures Shuffles(Pack(chunks + [[iocs]]), a, IocsWrites(l.AddIocs(s).iocs, iocs))
  {
    PackSnoc(chunks, [iocs]);
    IocsWritesSnoc(l.iocs, Iocs(s.slot, s.subslot, l.used), iocs);
    ShufflesRight(Pack(chunks), a, IocsWrites(l.iocs, iocs), Write(l.used, [iocs]));
  }

  lemma {:induction false} ProvidersInFrameOrder(slots: seq<Submodule>, payload: Payload, iops: byte, iocs: byte)
    requires Complete(slots, payload)
    ensures var l := OutputProviders(slots);
            Shuffles(Pack(ProviderChunks(slots, payload, iops, iocs)),
                     ObjectWrites(l.objects, payload, iops), IocsWrites(l.iocs, iocs))
  {
    if slots != [] {
      var s, before := Last(slots), OutputProviders(Front(slots));
      assert forall t | t in Front(slots) :: t in slots;
      assert s in slots;
      ProvidersInFrameOrder(Front(slots), payload, iops, iocs);
      ProviderChunksSpell(Front(slots), payload, iops, iocs);
      var chunks := ProviderChunks(Front(slots), payload, iops, iocs);
      if s.HasOutput() {
        OrderObject(before, chunks, s, payload, iops, IocsWrites(before.iocs, iocs));
      } else {
        OrderIocs(before, chunks, s, ObjectWrites(before.objects, payload, iops), iocs);
      }
    }
  }

  lemma ObjectWritesSnoc(os: seq<DataObject>, o: DataObject, payload: Payload, iops: byte)
    ensures ObjectWrites(os + [o], payload, iops)
         == ObjectWrites(os, payload, iops)
            + [Write(o.offset, DataOf(payload, o.slot, o.subslot)), Write(o.offset + o.length, [iops])]
  {
    assert (os + [o])[..|os|] == os;
  }

  lemma IocsWritesSnoc(cs: seq<Iocs>, c: Iocs, iocs: byte)
    ensures IocsWrites(cs + [c], iocs) == IocsWrites(cs, iocs) + [Write(c.offset, [iocs])]
  {
    assert (cs + [c])[..|cs|] == cs;
  }

  lemma {:induction false} TrailingChunksSpell(l: CrLayout, chunks: seq<bytes>, slots: seq<Submodule>, iocs: byte)
    requires |Flatten(chunks)| == l.used
    ensures var all := chunks + TrailingChunks(slots, iocs);
            && Flatten(all) == Flatten(chunks) + TrailingStatus(slots, iocs)
            && |Flatten(all)| == Trailing(l, slots).used
            && NonEmpty(TrailingChunks(slots, iocs))
  {
    if slots == [] {
      assert chunks + [] == chunks && Flatten(chunks) + [] == Flatten(chunks);
    } else {
      TrailingChunksSpell(l, chunks, Front(slots), iocs);
      var all := chunks + TrailingChunks(Front(slots), iocs);
      if Last(slots).HasOutput() {
        FlattenSnoc(all, [iocs]);
        assert all + [[iocs]] == chunks + TrailingChunks(slots, iocs);
        assert TrailingStatus(Front(slots), iocs) + [iocs] == TrailingStatus(slots, iocs);
        assert Flatten(chunks) + TrailingStatus(Front(slots), iocs) + [iocs]
            == Flatten(chunks) + (TrailingStatus(Front(slots), iocs) + [iocs]);
      } else {
        assert TrailingChunks(slots, iocs) == TrailingChunks(Front(slots), iocs);
        assert TrailingStatus(Front(slots), iocs) == TrailingStatus(slots, iocs);
      }
    }
  }

  lemma {:induction false} TrailingInFrameOrder(l: CrLayout, chunks: seq<bytes>, slots: seq<Submodule>, iocs: byte,
                                                a: seq<Write>)
    requires |Flatten(chunks)| == l.used && Shuffles(Pack(chunks), a, IocsWrites(l.iocs, iocs))
    ensures Shuffles(Pack(chunks + TrailingChunks(slots, iocs)), a, IocsWrites(Trailing(l, slots).iocs, iocs))
  {
    if slots == [] {
      assert chunks + [] == chunks;
    } else {
      TrailingInFrameOrder(l, chunks, Front(slots), iocs, a);
      TrailingChunksSpell(l, chunks, Front(slots), iocs);
      var all := chunks + TrailingChunks(Front(slots), iocs);
      var t := Trailing(l, Front(slots));
      if Last(slots).HasOutput() {
        assert all + [[iocs]] == chunks + TrailingChunks(slots, iocs);
        OrderIocs(t, all, Last(slots), a, iocs);
      } else {
        assert TrailingChunks(slots, iocs) == TrailingChunks(Front(slots), iocs);
      }
    }
  }

  // Writing each sub-module's data, IOPS and every IOCS byte at the offsets of the running
  // configuration, in any order, gives the per-sub-module segments in list order, the trailing
  // IOCS bytes, and zero padding up to the declared length.
  lemma OutputFrameImage(slots: seq<Submodule>, c: IocrConfig, payload: Payload, iops: byte, iocs: byte,
                         order: seq<Write>)
    requires Runs(c, OutputLayout(slots), true) && Complete(slots, payload)
    requires multiset(order) == multiset(RunningWrites(c.objects, payload, iops, iocs))
    ensures Within(order, c.dataLength)
    ensures PutAll(Zeros(c.dataLength), order)
         == Segments(slots, payload, iops, iocs) + TrailingStatus(slots, iocs)
            + Zeros(c.dataLength - OutputLayout(slots).used)
  {
    var chunks := ProviderChunks(slots, payload, iops, iocs) + TrailingChunks(slots, iocs);
    hide RunningWrites, Segments, TrailingStatus, ProviderChunks, TrailingChunks, OutputLayout, Pack, PutAll, NonEmpty;
    FrameInOrder(slots, c, payload, iops, iocs);
    PackedInAnyOrder(chunks, order, c.dataLength);
  }

  lemma FrameInOrder(slots: seq<Submodule>, c: IocrConfig, payload: Payload, iops: byte, iocs: byte)
    requires Runs(c, OutputLayout(slots), true) && Complete(slots, payload)
    ensures var chunks := ProviderChunks(slots, payload, iops, iocs) + TrailingChunks(slots, iocs);
            && multiset(RunningWrites(c.objects, payload, iops, iocs)) == multiset(Pack(chunks))
            && NonEmpty(chunks)
            && Flatten(chunks) == Segments(slots, payload, iops, iocs) + TrailingStatus(slots, iocs)
            && |Flatten(chunks)| == OutputLayout(slots).used
  {
    var p := OutputProviders(slots);
    var chunks := ProviderChunks(slots, payload, iops, iocs);
    RunningWritesOfLayout(slots, c, payload, iops, iocs);
    ProviderChunksSpell(slots, payload, iops, iocs);
    ProvidersInFrameOrder(slots, payload, iops, iocs);
    TrailingChunksSpell(p, chunks, slots, iocs);
    TrailingInFrameOrder(p, chunks, slots, iocs, ObjectWrites(p.objects, payload, iops));
  }

  lemma RunningWritesOfLayout(slots: seq<Submodule>, c: IocrConfig, payload: Payload, iops: byte, iocs: byte)
    requires Runs(c, OutputLayout(slots), true)
    ensures Shuffles(RunningWrites(c.objects, payload, iops, iocs),
                     ObjectWrites(OutputProviders(slots).objects, payload, iops),
                     IocsWrites(OutputLayout(slots).iocs, iocs))
  {
    hide OutputLayout, OutputProviders, RunningWrites, ObjectWrites, IocsWrites, DataOf;
    var l := OutputLayout(slots);
    TrailingOwnersKeepObjects(slots);
    OutputObjectsHaveData(slots);
    var n := |l.objects|;
    forall k | 0 <= k < n ensures l.objects[k].length > 0 && c.objects[..n][k] == RunningObject(l.objects[k]) {
      assert l.objects[k] in l.objects;
    }
    forall k | 0 <= k < |l.iocs| ensures c.objects[n..][k] == RunningIocs(l.iocs[k]) {
      assert c.objects[n..][k] == c.objects[n + k];
    }
    RunningObjectWrites(l.objects, c.objects[..n], payload, iops, iocs);
    RunningIocsWrites(c.objects[..n], l.iocs, c.objects[n..], payload, iops, iocs);
    assert c.objects == c.objects[..n] + c.objects[n..];
  }

  // ---------- setting every IOCS byte ----------

  function IocsOffsets(objects: seq<IoDataObject>): set<nat>
  {
    set o | o in objects && o.dataLength == 0 :: o.iocsOffset
  }

  // profinet-py's CyclicDataBuilder with the patched IOCS writers
  class CyclicDataBuilder {
    const config: IocrConfig
    const writeBuffer: array<byte>
    var dirty: bool

    ghost predicate Valid()
      reads this
    {
      && writeBuffer.Length == config.dataLength
      && forall o | o in config.objects && o.dataLength == 0 :: o.iocsOffset < writeBuffer.Length
    }

    constructor (config: IocrConfig)
      requires forall o | o in config.objects && o.dataLength == 0 :: o.iocsOffset < config.dataLength
      ensures Valid() && this.config == config && fresh(writeBuffer)
      ensures writeBuffer[..] == Zeros(config.dataLength)
    {
      this.config := config;
      writeBuffer := new byte[config.dataLength](_ => 0);
      dirty := false;
    }

    // Exactly the IOCS bytes change, offset 0 included.
    method SetAllIocs(status: byte)
      requires Valid()
      modifies this, writeBuffer
      ensures Valid() && dirty
      ensures forall p | 0 <= p < writeBuffer.Length ::
                writeBuffer[p] == if p in IocsOffsets(config.objects) then status else old(writeBuffer[p])
    {
      for i := 0 to |config.objects|
        invariant Valid()
        invariant forall p | 0 <= p < writeBuffer.Length ::
                    writeBuffer[p] == if p in IocsOffsets(config.objects[..i]) then status else old(writeBuffer[p])
      {
        var obj := config.objects[i];
        assert config.objects[..i + 1] == config.objects[..i] + [obj];
        if obj.dataLength == 0 {
          writeBuffer[obj.iocsOffset] := status;
          assert IocsOffsets(config.objects[..i + 1]) == IocsOffsets(config.objects[..i]) + {obj.iocsOffset};
        } else {
          assert IocsOffsets(config.objects[..i + 1]) == IocsOffsets(config.objects[..i]);
        }
      }
      assert config.objects[..|config.objects|] == config.objects;
      dirty := true;
    }
  }

  lemma {:induction false} OutputObjectsHaveData(slots: seq<Submodule>)
    ensures forall o | o in OutputProviders(slots).objects :: o.length > 0
  {
    if slots != [] { OutputObjectsHaveData(Front(slots)); }
  }

  // On the running output configuration those bytes are the declared IOCS bytes: every one of
  // them, all inside the frame, and none that carries data or an IOPS.
  lemma IocsOffsetsAreDeclared(slots: seq<Submodule>, c: IocrConfig)
    requires Runs(c, OutputLayout(slots), true)
    ensures var l := OutputLayout(slots);
            && (forall p :: p in IocsOffsets(c.objects) <==> exists k :: 0 <= k < |l.iocs| && l.iocs[k].offset == p)
            && (forall p | p in IocsOffsets(c.objects) :: p < c.dataLength)
            && (forall p, k | p in IocsOffsets(c.objects) && 0 <= k < |l.objects| ::
                  !(l.objects[k].offset <= p < l.objects[k].End()))
  {
    var l := OutputLayout(slots);
    LayoutTilesFrame(slots);
    OutputObjectsHaveData(slots);
    TrailingOwnersKeepObjects(slots);
    forall p ensures p in IocsOffsets(c.objects) <==> exists k :: 0 <= k < |l.iocs| && l.iocs[k].offset == p {
      if p in IocsOffsets(c.objects) {
        var k :| 0 <= k < |c.objects| && c.objects[k].dataLength == 0 && c.objects[k].iocsOffset == p;
        assert forall m | 0 <= m < |l.objects| :: l.objects[m] in l.objects && c.objects[m].dataLength > 0;
        assert c.objects[k] == c.objects[|l.objects| + (k - |l.objects|)];
        assert l.iocs[k - |l.objects|].offset == p;
      }
      if k :| 0 <= k < |l.iocs| && l.iocs[k].offset == p {
        assert c.objects[|l.objects| + k] in c.objects;
      }
    }
  }

  lemma TrailingOwnersKeepObjects(slots: seq<Submodule>)
    ensures OutputLayout(slots).objects == OutputProviders(slots).objects
  {
    ProviderOwners(slots);
    TrailingOwners(OutputProviders(slots), slots, WithOutput(slots, false));
  }
}
