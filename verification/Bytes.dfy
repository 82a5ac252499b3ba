// Bytes, fixed-width words and the put/get helpers every codec of the repository rests on.
module Bytes {
  type byte = b: int | 0 <= b < 0x100
  type u16 = v: int | 0 <= v < 0x1_0000
  type u32 = v: int | 0 <= v < 0x1_0000_0000
  type bytes = seq<byte>

  datatype Option<+T> = None | Some(value: T)

  // What struct.pack makes of a field, or the struct.error it raises
  datatype Error = StructError
  datatype Result<+T> = Success(value: T) | Failure(error: Error)
  {
    predicate IsFailure() { Failure? }
    function PropagateFailure<U>(): Result<U> requires Failure? { Failure(error) }
    function Extract(): T requires Success? { value }
  }

  // ---------- words ----------

  function Be16(v: u16): (s: bytes)
    ensures |s| == 2
  {
    [v / 0x100, v % 0x100]
  }

  function Le16(v: u16): (s: bytes)
    ensures |s| == 2
  {
    [v % 0x100, v / 0x100]
  }

  function Be32(v: u32): (s: bytes)
    ensures |s| == 4
  {
    Be16(v / 0x1_0000) + Be16(v % 0x1_0000)
  }

  function Le32(v: u32): (s: bytes)
    ensures |s| == 4
  {
    Le16(v % 0x1_0000) + Le16(v / 0x1_0000)
  }

  function GetBe16(s: bytes, off: nat): u16
    requires off + 2 <= |s|
  {
    s[off] as int * 0x100 + s[off + 1]
  }

  function GetLe16(s: bytes, off: nat): u16
    requires off + 2 <= |s|
  {
    s[off] + s[off + 1] as int * 0x100
  }

  function GetBe32(s: bytes, off: nat): u32
    requires off + 4 <= |s|
  {
    GetBe16(s, off) as int * 0x1_0000 + GetBe16(s, off + 2)
  }

  function GetLe32(s: bytes, off: nat): u32
    requires off + 4 <= |s|
  {
    GetLe16(s, off) + GetLe16(s, off + 2) as int * 0x1_0000
  }

  // Wherever the two or four bytes of a word lie in a buffer, the getter gives the word back.
  lemma ReadsBack16(s: bytes, off: nat, v: u16)
    requires off + 2 <= |s|
    ensures s[off..off + 2] == Be16(v) <==> GetBe16(s, off) == v
    ensures s[off..off + 2] == Le16(v) <==> GetLe16(s, off) == v
  {
    var w := s[off..off + 2];
    assert w[0] == s[off] && w[1] == s[off + 1];
    if GetBe16(s, off) == v { assert w == Be16(v); }
    if GetLe16(s, off) == v { assert w == Le16(v); }
  }

  lemma ReadsBackBe32(s: bytes, off: nat, v: u32)
    requires off + 4 <= |s|
    ensures s[off..off + 4] == Be32(v) <==> GetBe32(s, off) == v
  {
    ReadsBack16(s, off, v / 0x1_0000);
    ReadsBack16(s, off + 2, v % 0x1_0000);
    var w := s[off..off + 4];
    assert w == s[off..off + 2] + s[off + 2..off + 4];
    if w == Be32(v) {
      assert w[..2] == Be16(v / 0x1_0000) && w[2..] == Be16(v % 0x1_0000);
    }
  }

  lemma ReadsBackLe32(s: bytes, off: nat, v: u32)
    requires off + 4 <= |s|
    ensures s[off..off + 4] == Le32(v) <==> GetLe32(s, off) == v
  {
    ReadsBack16(s, off, v % 0x1_0000);
    ReadsBack16(s, off + 2, v / 0x1_0000);
    var w := s[off..off + 4];
    assert w == s[off..off + 2] + s[off + 2..off + 4];
    if w == Le32(v) {
      assert w[..2] == Le16(v % 0x1_0000) && w[2..] == Le16(v / 0x1_0000);
    }
  }

  // What the bytes of a word are: the first weighs most in network order, least in Intel order.
  lemma WordBytes(v: u16)
    ensures Be16(v)[0] as int * 256 + Be16(v)[1] == v
    ensures Le16(v)[0] + Le16(v)[1] as int * 256 == v
  {
  }

  lemma WordBytes32(v: u32)
    ensures var s := Be32(v); ((s[0] as int * 256 + s[1]) * 256 + s[2]) * 256 + s[3] == v
    ensures var s := Le32(v); ((s[3] as int * 256 + s[2]) * 256 + s[1]) * 256 + s[0] == v
  {
  }

  // ---------- sequences ----------

  function Zeros(n: nat): (s: bytes)
    ensures |s| == n
    ensures forall i | 0 <= i < n :: s[i] == 0
  {
    seq(n, _ => 0)
  }

  function Min(a: nat, b: nat): nat { if a < b then a else b }

  function Max(a: nat, b: nat): nat { if a < b then b else a }

  // data[:n].ljust(n, 0) of the Python sources
  function PadCut(d: bytes, n: nat): (s: bytes)
    ensures |s| == n
    ensures forall i | 0 <= i < n :: s[i] == if i < |d| then d[i] else 0
  {
    if |d| < n then d + Zeros(n - |d|) else d[..n]
  }

  // data[from:to] of the Python sources, where bounds past the end are cut
  function Slice(d: bytes, from: nat, to: nat): (s: bytes)
    requires from <= to
    ensures |s| == Min(to, |d|) - Min(from, |d|)
  {
    d[Min(from, |d|)..Min(to, |d|)]
  }

  function Flatten(parts: seq<bytes>): bytes
  {
    if parts == [] then [] else parts[0] + Flatten(parts[1..])
  }

  lemma FlattenNone()
    ensures Flatten([]) == []
  {
  }

  lemma {:induction false} FlattenAppend(a: seq<bytes>, b: seq<bytes>)
    ensures Flatten(a + b) == Flatten(a) + Flatten(b)
  {
    if a == [] {
      assert a + b == b;
    } else {
      assert (a + b)[1..] == a[1..] + b;
      FlattenAppend(a[1..], b);
    }
  }

  lemma FlattenSnoc(a: seq<bytes>, d: bytes)
    ensures Flatten(a + [d]) == Flatten(a) + d
  {
    FlattenAppend(a, [d]);
    assert Flatten([d]) == d + Flatten([]) == d;
  }

  lemma Assoc<T>(a: seq<T>, b: seq<T>, c: seq<T>)
    ensures a + (b + c) == a + b + c
  {
  }

  // Replacing the next element extends the part of `was` already turned into `goal`.
  lemma ReplaceNext<T>(goal: seq<T>, was: seq<T>, before: seq<T>, after: seq<T>, i: nat)
    requires |goal| == |was| && i < |was|
    requires before == goal[..i] + was[i..]
    requires after == before[..i] + [goal[i]] + before[i + 1..]
    ensures before[i] == was[i] && after == goal[..i + 1] + was[i + 1..]
  {
    assert before[..i] == goal[..i] && before[i + 1..] == was[i + 1..];
  }

  lemma DropAppend<T>(s: seq<T>, t: seq<T>, k: nat)
    requires k <= |s|
    ensures (s + t)[k..] == s[k..] + t
    ensures (s + t)[..k] == s[..k]
  {
    var w, v := (s + t)[k..], s[k..] + t;
    assert |w| == |v| && forall i | 0 <= i < |w| :: w[i] == (s + t)[k + i] == v[i];
  }

  lemma SubSlice<T>(s: seq<T>, from: nat, end: nat, i: nat, j: nat)
    requires from <= end <= |s| && i <= j <= end - from
    ensures s[from..end][i..j] == s[from + i..from + j]
  {
    var w, v := s[from..end][i..j], s[from + i..from + j];
    assert |w| == |v| && forall k | 0 <= k < |w| :: w[k] == s[from + i + k] == v[k];
  }

  // ---------- writing into a fixed buffer ----------

  method PutBytes(buf: array<byte>, off: nat, d: bytes)
    requires off + |d| <= buf.Length
    modifies buf
    ensures buf[..off + |d|] == old(buf[..off]) + d
    ensures buf[off + |d|..] == old(buf[off + |d|..])
  {
    for i := 0 to |d|
      invariant buf[..off + i] == old(buf[..off]) + d[..i]
      invariant buf[off + i..] == old(buf[off + i..])
    {
      buf[off + i] := d[i];
      assert buf[..off + i + 1] == buf[..off + i] + [d[i]];
    }
  }

  method PutU16Be(buf: array<byte>, off: nat, v: u16)
    requires off + 2 <= buf.Length
    modifies buf
    ensures buf[..off + 2] == old(buf[..off]) + Be16(v)
    ensures buf[off + 2..] == old(buf[off + 2..])
  {
    buf[off] := v / 0x100;
    buf[off + 1] := v % 0x100;
  }

  method PutU32Be(buf: array<byte>, off: nat, v: u32)
    requires off + 4 <= buf.Length
    modifies buf
    ensures buf[..off + 4] == old(buf[..off]) + Be32(v)
    ensures buf[off + 4..] == old(buf[off + 4..])
  {
    PutU16Be(buf, off, v / 0x1_0000);
    PutU16Be(buf, off + 2, v % 0x1_0000);
  }
}
