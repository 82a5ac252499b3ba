// The cyclic RT frames as each side builds and takes them, and the words they carry.
module RtFrames {
  import opened Bytes

  type Mac = m: bytes | |m| == 6 witness Zeros(6)

  const FID_DCP_IDENTIFY: u16 := 0xFEFE
  const FID_DCP_SET: u16 := 0xFEFD
  const ETH_MIN_FRAME := 60
  const ETH_MAX_FRAME := 1514
  const STW1_STOP: u16 := 0x0476

  // PROFIdrive telegram 1: two little-endian words
  function Telegram1(a: u16, b: u16): (s: bytes)
    ensures |s| == 4
  {
    Le16(a) + Le16(b)
  }

  function Words(t: bytes): (u16, u16)
    requires |t| >= 4
  {
    (GetLe16(t, 0), GetLe16(t, 2))
  }

  // ---------- controller to device ----------

  function EthHeader(dst: Mac, src: Mac): (s: bytes)
    ensures |s| == 14
  {
    dst + src + [0x88, 0x92]
  }

  function OutputFrame(dst: Mac, src: Mac, fid: u16, iops: byte, data: bytes, cc: u16): (s: bytes)
    ensures |s| == 22 + |data|
  {
    EthHeader(dst, src) + Be16(fid) + [iops] + data + [0x80] + Be16(cc) + [0x35, 0]
  }

  function Padded(f: bytes): (s: bytes)
    ensures |s| == Max(ETH_MIN_FRAME, |f|)
  {
    if |f| < ETH_MIN_FRAME then f + Zeros(ETH_MIN_FRAME - |f|) else f
  }

  // ---------- device to controller ----------

  function InputFrame(dst: Mac, src: Mac, fid: u16, zsw1: u16, nist: u16, cc: u16): (s: bytes)
    ensures |s| == ETH_MIN_FRAME
  {
    EthHeader(dst, src) + Be16(fid) + [0x80] + Telegram1(zsw1, nist) + [0x80] + Be16(cc) + [0x35, 0] + Zeros(34)
  }

  lemma InputFrameIs(head: bytes, dst: Mac, src: Mac, fid: u16, zsw1: u16, nist: u16, cc: u16)
    requires head == [] + dst + src + [0x88, 0x92] + Be16(fid) + [0x80]
             + Le16(zsw1) + Le16(nist) + [0x80] + Be16(cc) + [0x35, 0]
    ensures head + Zeros(34) == InputFrame(dst, src, fid, zsw1, nist, cc)
  {
    hide Be16, Le16;
    assert [] + dst == dst;
    Assoc(EthHeader(dst, src) + Be16(fid) + [0x80], Le16(zsw1), Le16(nist));
  }

  // ---------- the simulated drive ----------

  datatype DriveIo = DriveIo(autoSim: bool, stw1: u16, nsoll: u16, zsw1: u16, nist: u16)

  function FreshDrive(autoSim: bool): DriveIo { DriveIo(autoSim, 0, 0, 0x0F21, 0) }

  predicate Enables(stw1: u16) { stw1 % 2 == 1 && stw1 / 8 % 2 == 1 && stw1 / 64 % 2 == 1 }

  // ZSW1 and NIST_A the drive answers to STW1 and NSOLL_A
  function Status(stw1: u16, nsoll: u16): (u16, u16)
  {
    if Enables(stw1) then (0x0F37, nsoll) else if stw1 % 2 == 1 then (0x0F31, 0) else (0x0F21, 0)
  }

  function DriveTakes(d: DriveIo, f: bytes): DriveIo
  {
    if |f| < 22 || f[16] < 0x80 then d
    else
      var stw1, nsoll := GetLe16(f, 17), GetLe16(f, 19);
      if d.autoSim then DriveIo(true, stw1, nsoll, Status(stw1, nsoll).0, Status(stw1, nsoll).1)
      else d.(stw1 := stw1, nsoll := nsoll)
  }

  function DriveReceives(d: DriveIo, cyclic: bool, outFid: u16, f: bytes): DriveIo
  {
    if |f| < 16 || f[12] != 0x88 || f[13] != 0x92 then d
    else
      var fid := GetBe16(f, 14);
      if fid != FID_DCP_IDENTIFY && fid != FID_DCP_SET && cyclic && fid == outFid then DriveTakes(d, f) else d
  }

  // ---------- the controller ----------

  // rt_parse_input behind the thread's frame-ID test: the first inLen input bytes are replaced
  function InputReceives(input: bytes, inLen: nat, inFid: u16, f: bytes): (r: bytes)
    requires inLen <= |input|
    ensures |r| == |input|
  {
    if |f| <= 16 || GetBe16(f, 14) != inFid || |f| < 22 + inLen || f[16] < 0x80 then input
    else f[17..17 + inLen] + input[inLen..]
  }

  // ---------- the frames byte by byte ----------

  // The fields nobody reads back as well: addresses, IOCS, cycle counter and status
  lemma OutputBytes(dst: Mac, src: Mac, fid: u16, iops: byte, data: bytes, cc: u16)
    ensures var f, n := OutputFrame(dst, src, fid, iops, data, cc), |data|;
            && |f| == n + 22 && f[0..6] == dst && f[6..12] == src && f[12] == 0x88 && f[13] == 0x92
            && GetBe16(f, 14) == fid && f[16] == iops && f[17..17 + n] == data && f[n + 17] == 0x80
            && GetBe16(f, n + 18) == cc && f[n + 20] == 0x35 && f[n + 21] == 0
  {
  }

  lemma PaddingIsZero(f: bytes)
    ensures |Padded(f)| >= 60 && Padded(f)[..|f|] == f
    ensures forall i | |f| <= i < |Padded(f)| :: Padded(f)[i] == 0
    ensures |f| >= 60 ==> Padded(f) == f
  {
  }

  lemma InputBytes(dst: Mac, src: Mac, fid: u16, zsw1: u16, nist: u16, cc: u16)
    ensures var f := InputFrame(dst, src, fid, zsw1, nist, cc);
            && f[0..6] == dst && f[6..12] == src && f[12] == 0x88 && f[13] == 0x92 && GetBe16(f, 14) == fid
            && f[16] == 0x80 && GetLe16(f, 17) == zsw1 && GetLe16(f, 19) == nist && f[21] == 0x80
            && GetBe16(f, 22) == cc && f[24] == 0x35 && f[25] == 0
            && forall i | 26 <= i < 60 :: f[i] == 0
  {
  }

  // Bits 0, 3 and 6 are set, whatever the others are.
  lemma EnableBits(high: nat, mid: nat, low: nat, bit0: nat, bit3: nat, bit6: nat)
    requires high < 512 && mid < 4 && low < 4 && bit0 < 2 && bit3 < 2 && bit6 < 2
    ensures Enables(128 * high + 64 * bit6 + 16 * mid + 8 * bit3 + 2 * low + bit0)
            <==> bit0 == 1 && bit3 == 1 && bit6 == 1
  {
    var w := 128 * high + 64 * bit6 + 16 * mid + 8 * bit3 + 2 * low + bit0;
    BitOf(64 * high + 32 * bit6 + 8 * mid + 4 * bit3 + low, 1, 0, bit0);
    BitOf(8 * high + 4 * bit6 + mid, 8, 2 * low + bit0, bit3);
    BitOf(high, 64, 16 * mid + 8 * bit3 + 2 * low + bit0, bit6);
    assert w / 1 == w;
  }

  lemma BitOf(above: nat, weight: nat, below: nat, bit: nat)
    requires (weight == 1 || weight == 8 || weight == 64) && below < weight && bit < 2
    ensures (2 * weight * above + weight * bit + below) / weight % 2 == bit
  {
    if weight == 8 {
      assert (16 * above + 8 * bit + below) / 8 == 2 * above + bit;
    } else if weight == 64 {
      assert (128 * above + 64 * bit + below) / 64 == 2 * above + bit;
    }
  }

  // The drive's answers: running with the commanded speed, switched on without it, or off
  lemma AnswerTable(stw1: u16, nsoll: u16)
    ensures Enables(stw1) ==> Status(stw1, nsoll) == (0x0F37, nsoll)
    ensures !Enables(stw1) && stw1 % 2 == 1 ==> Status(stw1, nsoll) == (0x0F31, 0)
    ensures stw1 % 2 == 0 ==> Status(stw1, nsoll) == (0x0F21, 0)
  {
  }

  // ---------- what each side takes from the other's frames ----------

  lemma OutputFields(dst: Mac, src: Mac, fid: u16, iops: byte, a: u16, b: u16, cc: u16)
    ensures var f := Padded(OutputFrame(dst, src, fid, iops, Telegram1(a, b), cc));
            && |f| == ETH_MIN_FRAME && f[12] == 0x88 && f[13] == 0x92 && GetBe16(f, 14) == fid && f[16] == iops
            && GetLe16(f, 17) == a && GetLe16(f, 19) == b
  {
    hide Be16, Le16, GetBe16, GetLe16;
    var o := OutputFrame(dst, src, fid, iops, Telegram1(a, b), cc);
    var f := Padded(o);
    var h := EthHeader(dst, src);
    assert o[..21] == h + Be16(fid) + [iops] + Le16(a) + Le16(b);
    assert f[..21] == o[..21];
    var head := f[..21];
    assert head[12..14] == [0x88, 0x92] && head[14..16] == Be16(fid)
        && head[17..19] == Le16(a) && head[19..21] == Le16(b);
    assert f[12] == head[12..14][0] && f[13] == head[12..14][1] && f[16] == head[16];
    SubSlice(f, 0, 21, 14, 16); SubSlice(f, 0, 21, 17, 19); SubSlice(f, 0, 21, 19, 21);
    ReadsBack16(f, 14, fid); ReadsBack16(f, 17, a); ReadsBack16(f, 19, b);
  }

  lemma InputFields(dst: Mac, src: Mac, fid: u16, zsw1: u16, nist: u16, cc: u16)
    ensures var f := InputFrame(dst, src, fid, zsw1, nist, cc);
            && f[12] == 0x88 && f[13] == 0x92 && GetBe16(f, 14) == fid && f[16] == 0x80
            && f[17..21] == Telegram1(zsw1, nist)
  {
    hide Be16, Le16, GetBe16;
    var f := InputFrame(dst, src, fid, zsw1, nist, cc);
    var h := EthHeader(dst, src);
    assert f[..21] == h + Be16(fid) + [0x80] + Telegram1(zsw1, nist);
    var head := f[..21];
    assert head[12..14] == [0x88, 0x92] && head[14..16] == Be16(fid);
    assert f[12] == head[12..14][0] && f[13] == head[12..14][1];
    SubSlice(f, 0, 21, 14, 16); SubSlice(f, 0, 21, 17, 21);
    ReadsBack16(f, 14, fid);
  }

  lemma TelegramReadsBack(a: u16, b: u16)
    ensures Words(Telegram1(a, b)) == (a, b)
  {
    var t := Telegram1(a, b);
    assert t[0..2] == Le16(a) && t[2..4] == Le16(b);
    ReadsBack16(t, 0, a);
    ReadsBack16(t, 2, b);
  }

  // A cyclic device takes both words of every good frame of its ID, and answers them if it simulates.
  lemma DriveTakesSetpoint(d: DriveIo, dst: Mac, src: Mac, outFid: u16, iops: byte, a: u16, b: u16, cc: u16)
    requires outFid != 0xFEFE && outFid != 0xFEFD && iops >= 0x80
    ensures var e := DriveReceives(d, true, outFid, Padded(OutputFrame(dst, src, outFid, iops, Telegram1(a, b), cc)));
            && e.stw1 == a && e.nsoll == b && e.autoSim == d.autoSim
            && (if d.autoSim then (e.zsw1, e.nist) == Status(a, b) else (e.zsw1, e.nist) == (d.zsw1, d.nist))
  {
    hide OutputFrame, Padded, Telegram1, Status, GetBe16, GetLe16;
    OutputFields(dst, src, outFid, iops, a, b, cc);
  }

  // It takes nothing from any other frame, and nothing at all while it is not cyclic.
  lemma DriveIgnores(d: DriveIo, cyclic: bool, outFid: u16, f: bytes)
    requires !cyclic || |f| < 22 || f[12] != 0x88 || f[13] != 0x92 || GetBe16(f, 14) != outFid || f[16] < 0x80
             || GetBe16(f, 14) == 0xFEFE || GetBe16(f, 14) == 0xFEFD
    ensures DriveReceives(d, cyclic, outFid, f) == d
  {
  }

  // The controller takes as many bytes as are configured from every good frame of its ID.
  lemma ControllerTakes(input: bytes, inLen: nat, inFid: u16, f: bytes)
    requires inLen <= |input| && |f| >= 22 + inLen && GetBe16(f, 14) == inFid && f[16] >= 0x80
    ensures var r := InputReceives(input, inLen, inFid, f);
            |r| == |input| && r[..inLen] == f[17..17 + inLen] && r[inLen..] == input[inLen..]
  {
  }

  lemma ControllerIgnores(input: bytes, inLen: nat, inFid: u16, f: bytes)
    requires inLen <= |input|
    requires |f| < 22 + inLen || GetBe16(f, 14) != inFid || f[16] < 0x80
    ensures InputReceives(input, inLen, inFid, f) == input
  {
  }
}
