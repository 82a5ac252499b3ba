// The STM byte stream ([4-byte big-endian length][payload] ...) and the socket it arrives on.
module StmStream {
  import opened Bytes

  const MAX_MESSAGE := 1_000_000

  // ---------- the socket ----------

  // What the next recv meets: at most k (at least one) bytes, a timeout, or an OSError. Once
  // the schedule is used up recv returns all it is asked for; with nothing pending it returns
  // b"", the peer having closed.
  datatype Event = Cut(k: nat) | Timeout | Broken

  datatype Received = Chunk(chunk: bytes) | TimedOut | OsError

  class Connection {
    var pending: bytes
    var schedule: seq<Event>
    ghost var delivered: bytes

    constructor (stream: bytes, schedule: seq<Event>)
      ensures pending == stream && this.schedule == schedule && delivered == []
    {
      pending, this.schedule, delivered := stream, schedule, [];
    }

    // Since an earlier moment bytes only moved from pending to delivered, in order
    ghost predicate Progress(delivered0: bytes, pending0: bytes, schedule0: seq<Event>)
      reads this
    {
      && delivered + pending == delivered0 + pending0
      && delivered0 <= delivered
      && |schedule| <= |schedule0|
      && (Broken !in schedule0 ==> Broken !in schedule)
    }

    method Recv(n: nat) returns (r: Received)
      requires n > 0
      modifies this
      ensures Progress(old(delivered), old(pending), old(schedule))
      ensures match r
              case Chunk(chunk) =>
                && delivered == old(delivered) + chunk && |chunk| <= n
                && (chunk == [] ==> pending == [])
                && (chunk != [] ==> |pending| + |schedule| < |old(pending)| + |old(schedule)|)
              case TimedOut => delivered == old(delivered) && pending == old(pending) && |schedule| < |old(schedule)|
              case OsError => delivered == old(delivered) && Broken in old(schedule)
    {
      var k := n;
      if schedule != [] {
        var event := schedule[0];
        schedule := schedule[1..];
        match event
        case Timeout => return TimedOut;
        case Broken => return OsError;
        case Cut(c) => k := Min(n, Max(1, c));
      }
      var m := Min(k, |pending|);
      r := Chunk(pending[..m]);
      delivered := delivered + pending[..m];
      pending := pending[m..];
    }
  }

  // ---------- messages of a byte string ----------

  // The payloads a receiver takes from s: a zero or oversized length drops only its header, a
  // truncated tail is dropped.
  function Messages(s: bytes): seq<bytes>
    decreases |s|
  {
    if |s| < 4 then []
    else
      var n := GetBe32(s, 0);
      if n == 0 || n > MAX_MESSAGE then Messages(s[4..])
      else if |s| < 4 + n then []
      else [s[4..4 + n]] + Messages(s[4 + n..])
  }

  // s ends at a message boundary
  predicate Complete(s: bytes)
    decreases |s|
  {
    if |s| < 4 then s == []
    else
      var n := GetBe32(s, 0);
      if n == 0 || n > MAX_MESSAGE then Complete(s[4..])
      else |s| >= 4 + n && Complete(s[4 + n..])
  }

  lemma HeadSame(s: bytes, t: bytes)
    requires |s| >= 4
    ensures GetBe32(s + t, 0) == GetBe32(s, 0)
  {
    assert forall i | 0 <= i < 4 :: (s + t)[i] == s[i];
  }

  lemma {:induction false} CompleteAppend(s: bytes, t: bytes)
    requires Complete(s)
    ensures Messages(s + t) == Messages(s) + Messages(t)
    ensures Complete(s + t) <==> Complete(t)
    decreases |s|
  {
    hide GetBe32;
    if s == [] {
      assert s + t == t;
      assert Messages(s) == [];
    } else {
      var n := GetBe32(s, 0);
      HeadSame(s, t);
      DropAppend(s, t, 4);
      if n == 0 || n > MAX_MESSAGE {
        CompleteAppend(s[4..], t);
      } else {
        DropAppend(s, t, 4 + n);
        SubSlice(s + t, 0, 4 + n, 4, 4 + n);
        SubSlice(s, 0, 4 + n, 4, 4 + n);
        CompleteAppend(s[4 + n..], t);
        Assoc([s[4..4 + n]], Messages(s[4 + n..]), Messages(t));
      }
    }
  }

  lemma SkippedHeader(hdr: bytes)
    requires |hdr| == 4 && (GetBe32(hdr, 0) == 0 || GetBe32(hdr, 0) > MAX_MESSAGE)
    ensures Messages(hdr) == [] && Complete(hdr)
  {
    assert hdr[4..] == [];
  }

  lemma WholeMessage(hdr: bytes, payload: bytes)
    requires |hdr| == 4 && GetBe32(hdr, 0) == |payload| && 0 < |payload| <= MAX_MESSAGE
    ensures Messages(hdr + payload) == [payload] && Complete(hdr + payload)
  {
    var s, n := hdr + payload, |payload|;
    assert GetBe32(s, 0) == n;
    assert s[4..4 + n] == payload && s[4 + n..] == [];
    assert Messages([]) == [] && Complete([]);
  }

  lemma TruncatedMessage(tail: bytes, hdr: bytes)
    requires |hdr| == 4 <= |tail| && tail[..4] == hdr
    requires 0 < GetBe32(hdr, 0) <= MAX_MESSAGE && |tail| < 4 + GetBe32(hdr, 0)
    ensures Messages(tail) == []
  {
    assert forall i | 0 <= i < 4 :: tail[i] == tail[..4][i] == hdr[i];
    assert GetBe32(tail, 0) == GetBe32(hdr, 0);
  }

  // ---------- what a sender's stream means to the receiver ----------

  function Send(m: bytes): (s: bytes)
    requires |m| < 0x1_0000_0000
  {
    Be32(|m|) + m
  }

  function SendAll(ms: seq<bytes>): bytes
    requires forall m | m in ms :: |m| <= MAX_MESSAGE
  {
    if ms == [] then [] else Send(ms[0]) + SendAll(ms[1..])
  }

  function NonEmpty(ms: seq<bytes>): seq<bytes>
  {
    if ms == [] then [] else (if ms[0] == [] then [] else [ms[0]]) + NonEmpty(ms[1..])
  }

  lemma SentIsRead(m: bytes)
    requires |m| <= MAX_MESSAGE
    ensures Complete(Send(m)) && Messages(Send(m)) == if m == [] then [] else [m]
  {
    var hdr := Be32(|m|);
    assert hdr[0..4] == hdr;
    ReadsBackBe32(hdr, 0, |m|);
    if m == [] {
      SkippedHeader(hdr);
      assert Send(m) == hdr;
    } else {
      WholeMessage(hdr, m);
    }
  }

  // A header that announces nothing, or more than 1,000,000 bytes, is dropped alone: what follows it
  // is read as the next header.
  lemma OversizedDropsHeader(n: u32, rest: bytes)
    requires n == 0 || n > 1_000_000
    ensures Messages(Be32(n) + rest) == Messages(rest)
  {
    var hdr := Be32(n);
    assert hdr[0..4] == hdr;
    ReadsBackBe32(hdr, 0, n);
    SkippedHeader(hdr);
    CompleteAppend(hdr, rest);
    assert [] + Messages(rest) == Messages(rest);
  }

  // Exactly the non-empty messages sent, whole and in order; a message cut off by the end of the
  // stream is never applied.
  lemma {:induction false} DeliversSent(ms: seq<bytes>, cut: bytes, k: nat)
    requires forall m | m in ms :: |m| <= 1_000_000
    requires |cut| <= 1_000_000 && k < |Send(cut)|
    ensures Messages(SendAll(ms) + Send(cut)[..k]) == NonEmpty(ms)
    decreases |ms|
  {
    if ms == [] {
      var tail := Send(cut)[..k];
      assert [] + tail == tail;
      if k >= 4 {
        var hdr := Be32(|cut|);
        assert hdr[0..4] == hdr;
        ReadsBackBe32(hdr, 0, |cut|);
        assert tail[..4] == hdr;
        TruncatedMessage(tail, hdr);
      }
    } else {
      var rest := SendAll(ms[1..]) + Send(cut)[..k];
      assert SendAll(ms) + Send(cut)[..k] == Send(ms[0]) + rest;
      SentIsRead(ms[0]);
      CompleteAppend(Send(ms[0]), rest);
      assert ms[0] in ms && forall m | m in ms[1..] :: m in ms;
      DeliversSent(ms[1..], cut, k);
    }
  }
}
