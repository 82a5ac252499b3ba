// One setpoint through the API, over the wire, through the simulated drive and back.
module RoundTrip {
  import opened Bytes
  import opened RtFrames
  import opened PnContext

  // PN_DriveSetpoint, one command frame, the drive, one status frame, PN_DriveStatus: with the
  // exchange active and a simulating drive, what is read is the drive's answer to exactly the pair
  // that was set, whatever was in the buffers and in the drive before.
  lemma SetpointComesBack(s: Api, d: DriveIo, ctrl: Mac, dev: Mac, outFid: u16, inFid: u16, iops: byte,
                          a: u16, b: u16, cc1: u16, cc2: u16)
    requires Lifecycle(s) && s.state == CyclicActive && 4 <= s.inputLen <= 38
    requires d.autoSim && outFid != 0xFEFE && outFid != 0xFEFD && iops >= 0x80
    ensures var t := Step(s, Call.DriveSetpoint(a, b)).0;
            var command := Padded(OutputFrame(dev, ctrl, outFid, iops, t.output[..t.outputLen], cc1));
            var e := DriveReceives(d, true, outFid, command);
            var report := InputFrame(ctrl, dev, inFid, e.zsw1, e.nist, cc2);
            var u := Step(t, Call.FrameReceived(inFid, report)).0;
            && (e.stw1, e.nsoll) == (a, b)
            && Words(u.input[..4]) == Status(a, b)
  {
    hide OutputFrame, Padded, InputFrame, Telegram1, Status, GetBe16, GetLe16, DriveReceives, InputReceives, Words;
    var t := Step(s, Call.DriveSetpoint(a, b)).0;
    assert t.output[..t.outputLen] == Telegram1(a, b);
    DriveTakesSetpoint(d, dev, ctrl, outFid, iops, a, b, cc1);
    var v := Status(a, b);
    var report := InputFrame(ctrl, dev, inFid, v.0, v.1, cc2);
    InputFields(ctrl, dev, inFid, v.0, v.1, cc2);
    ControllerTakes(t.input, t.inputLen, inFid, report);
    var r := InputReceives(t.input, t.inputLen, inFid, report);
    HeadOfHead(r, report, t.inputLen);
    TelegramReadsBack(v.0, v.1);
  }

  lemma HeadOfHead(r: bytes, f: bytes, n: nat)
    requires 4 <= n <= |r| && 17 + n <= |f| && r[..n] == f[17..17 + n]
    ensures r[..4] == f[17..21]
  {
    assert r[..4] == r[..n][..4];
    SubSlice(f, 17, 17 + n, 0, 4);
  }
}
