// The cyclic exchange as a run of steps: setpoints written by the application, frames sent by
// either side, frames received in any order, any number of times or never.
module CyclicExchange {
  import opened Bytes
  import opened RtFrames

  // Fixed while the AR lives; `cyclic` is the device's state, and a looping adapter hands each
  // side its own frames too.
  datatype Link = Link(ctrlMac: Mac, devMac: Mac, outFid: u16, inFid: u16, cyclic: bool, loops: bool)
  {
    // A side can tell the other's frames from its own.
    predicate Distinct() { !(loops && inFid == outFid) }
  }

  // `output` and `input` are the first four bytes of the controller's buffers; `commands` and
  // `reports` hold every frame the controller and the drive ever put on the wire.
  type Telegram = t: bytes | |t| == 4 witness Zeros(4)

  datatype State = State(output: Telegram, input: Telegram, drive: DriveIo,
                         commands: set<bytes>, reports: set<bytes>)

  datatype Event =
    | DriveSetpoint(stw1: u16, nsoll: u16)
    | ControllerSends(cc: u16)
    | DriveSends(cc: u16)
    | ControllerGets(f: bytes)
    | DriveGets(f: bytes)

  // Any frame sent before may arrive, any number of times.
  ghost predicate Enabled(l: Link, s: State, e: Event)
  {
    match e
    case ControllerGets(f) => f in s.reports || (l.loops && f in s.commands)
    case DriveGets(f) => f in s.commands || (l.loops && f in s.reports)
    case _ => true
  }

  function OutputOnWire(l: Link, output: bytes, cc: u16): bytes
  {
    Padded(OutputFrame(l.devMac, l.ctrlMac, l.outFid, 0x80, output, cc))
  }

  function InputOnWire(l: Link, d: DriveIo, cc: u16): bytes
  {
    InputFrame(l.ctrlMac, l.devMac, l.inFid, d.zsw1, d.nist, cc)
  }

  function Next(l: Link, s: State, e: Event): State
  {
    match e
    case DriveSetpoint(a, b) => s.(output := Telegram1(a, b))
    case ControllerSends(cc) => s.(commands := s.commands + {OutputOnWire(l, s.output, cc)})
    case DriveSends(cc) => s.(reports := s.reports + {InputOnWire(l, s.drive, cc)})
    case ControllerGets(f) => s.(input := InputReceives(s.input, 4, l.inFid, f))
    case DriveGets(f) => s.(drive := DriveReceives(s.drive, l.cyclic, l.outFid, f))
  }

  // After PN_Connect: the stop telegram is in the output buffer, the input buffer is zero.
  function Initial(autoSim: bool): State
  {
    State(Telegram1(STW1_STOP, 0), Zeros(4), FreshDrive(autoSim), {}, {})
  }

  ghost predicate Run(l: Link, states: seq<State>, events: seq<Event>)
  {
    && |states| == |events| + 1
    && states[0] == Initial(states[0].drive.autoSim)
    && forall k | 0 <= k < |events| ::
         Enabled(l, states[k], events[k]) && states[k + 1] == Next(l, states[k], events[k])
  }

  // The start-up stop telegram and every pair PN_DriveSetpoint wrote in the first k events
  function Written(events: seq<Event>, k: nat): set<(u16, u16)>
    requires k <= |events|
  {
    if k == 0 then {(STW1_STOP, 0)}
    else
      var w := Written(events, k - 1);
      match events[k - 1]
      case DriveSetpoint(a, b) => w + {(a, b)}
      case _ => w
  }

  // ---------- the invariant ----------

  ghost predicate AnswersOne(v: (u16, u16), w: set<(u16, u16)>) { exists p :: p in w && v == Status(p.0, p.1) }

  ghost predicate CommandsOne(l: Link, f: bytes, w: set<(u16, u16)>)
  {
    exists p, cc :: p in w && f == OutputOnWire(l, Telegram1(p.0, p.1), cc)
  }

  ghost predicate ReportsOne(l: Link, f: bytes, w: set<(u16, u16)>)
  {
    exists v: (u16, u16), cc :: AnswersOne(v, w) && f == InputFrame(l.ctrlMac, l.devMac, l.inFid, v.0, v.1, cc)
  }

  ghost predicate Inv(l: Link, s: State, w: set<(u16, u16)>)
  {
    && (exists p :: p in w && s.output == Telegram1(p.0, p.1))
    && AnswersOne((s.drive.zsw1, s.drive.nist), w)
    && (s.input == Zeros(4) || exists v: (u16, u16) :: AnswersOne(v, w) && s.input == Telegram1(v.0, v.1))
    && (forall f | f in s.commands :: CommandsOne(l, f, w))
    && (forall f | f in s.reports :: ReportsOne(l, f, w))
  }

  lemma InvInitial(l: Link, autoSim: bool)
    ensures Inv(l, Initial(autoSim), {(STW1_STOP, 0)})
  {
    var p := (STW1_STOP, 0 as u16);
    assert p in {(STW1_STOP, 0)} && Status(p.0, p.1) == (0x0F21, 0);
  }

  lemma InvGrows(l: Link, s: State, w: set<(u16, u16)>, more: set<(u16, u16)>)
    requires Inv(l, s, w) && w <= more
    ensures Inv(l, s, more)
  {
    hide OutputOnWire, InputFrame, Telegram1, Status;
    assert forall v :: AnswersOne(v, w) ==> AnswersOne(v, more);
    forall f | f in s.commands ensures CommandsOne(l, f, more) {
      var p, cc :| p in w && f == OutputOnWire(l, Telegram1(p.0, p.1), cc);
      assert p in more;
    }
  }

  lemma KeepsDriveGets(l: Link, s: State, w: set<(u16, u16)>, f: bytes)
    requires Inv(l, s, w) && Enabled(l, s, DriveGets(f)) && l.Distinct()
    ensures Inv(l, s.(drive := DriveReceives(s.drive, l.cyclic, l.outFid, f)), w)
  {
    hide OutputFrame, Padded, InputFrame, Telegram1, Status, GetBe16, GetLe16;
    if f in s.commands {
      var p, cc :| p in w && f == OutputOnWire(l, Telegram1(p.0, p.1), cc);
      OutputFields(l.devMac, l.ctrlMac, l.outFid, 0x80, p.0, p.1, cc);
      assert AnswersOne(Status(p.0, p.1), w);
    } else {
      var v: (u16, u16), cc :| AnswersOne(v, w) && f == InputFrame(l.ctrlMac, l.devMac, l.inFid, v.0, v.1, cc);
      InputFields(l.ctrlMac, l.devMac, l.inFid, v.0, v.1, cc);
    }
  }

  lemma KeepsControllerGets(l: Link, s: State, w: set<(u16, u16)>, f: bytes)
    requires Inv(l, s, w) && Enabled(l, s, ControllerGets(f)) && l.Distinct()
    ensures Inv(l, s.(input := InputReceives(s.input, 4, l.inFid, f)), w)
  {
    hide OutputFrame, Padded, InputFrame, Telegram1, Status, GetBe16, GetLe16;
    if f !in s.reports {
      var p, cc :| p in w && f == OutputOnWire(l, Telegram1(p.0, p.1), cc);
      OutputFields(l.devMac, l.ctrlMac, l.outFid, 0x80, p.0, p.1, cc);
    } else {
      var v: (u16, u16), cc :| AnswersOne(v, w) && f == InputFrame(l.ctrlMac, l.devMac, l.inFid, v.0, v.1, cc);
      InputFields(l.ctrlMac, l.devMac, l.inFid, v.0, v.1, cc);
      assert s.input[4..] == [] && f[17..21] + [] == f[17..21];
      assert InputReceives(s.input, 4, l.inFid, f) == Telegram1(v.0, v.1);
    }
  }

  lemma KeepsSends(l: Link, s: State, w: set<(u16, u16)>, cc: u16)
    requires Inv(l, s, w)
    ensures Inv(l, s.(commands := s.commands + {OutputOnWire(l, s.output, cc)}), w)
    ensures Inv(l, s.(reports := s.reports + {InputOnWire(l, s.drive, cc)}), w)
  {
    hide OutputFrame, Padded, InputFrame, Telegram1, Status;
    var p :| p in w && s.output == Telegram1(p.0, p.1);
    assert CommandsOne(l, OutputOnWire(l, s.output, cc), w);
    var v := (s.drive.zsw1, s.drive.nist);
    assert AnswersOne(v, w) && InputOnWire(l, s.drive, cc) == InputFrame(l.ctrlMac, l.devMac, l.inFid, v.0, v.1, cc);
    assert ReportsOne(l, InputOnWire(l, s.drive, cc), w);
  }

  lemma InvKept(l: Link, s: State, w: set<(u16, u16)>, e: Event)
    requires Inv(l, s, w) && Enabled(l, s, e) && l.Distinct()
    ensures Inv(l, Next(l, s, e), if e.DriveSetpoint? then w + {(e.stw1, e.nsoll)} else w)
  {
    match e
    case DriveSetpoint(a, b) => KeepsSetpoint(l, s, w, a, b);
    case ControllerSends(cc) => KeepsSends(l, s, w, cc);
    case DriveSends(cc) => KeepsSends(l, s, w, cc);
    case ControllerGets(f) => KeepsControllerGets(l, s, w, f);
    case DriveGets(f) => KeepsDriveGets(l, s, w, f);
  }

  lemma KeepsSetpoint(l: Link, s: State, w: set<(u16, u16)>, a: u16, b: u16)
    requires Inv(l, s, w)
    ensures Inv(l, s.(output := Telegram1(a, b)), w + {(a, b)})
  {
    hide OutputOnWire, InputFrame, Telegram1, Status, AnswersOne, CommandsOne, ReportsOne;
    InvGrows(l, s, w, w + {(a, b)});
    var p := (a, b);
    assert p in w + {(a, b)};
  }

  lemma RunInv(l: Link, states: seq<State>, events: seq<Event>, k: nat)
    requires Run(l, states, events) && l.Distinct() && k < |states|
    ensures Inv(l, states[k], Written(events, k))
  {
    hide Inv, Next, Initial;
    if k == 0 {
      InvInitial(l, states[0].drive.autoSim);
    } else {
      RunInv(l, states, events, k - 1);
      InvKept(l, states[k - 1], Written(events, k - 1), events[k - 1]);
    }
  }

  // The pair PN_DriveStatus returns is (0, 0) or the drive's answer to one whole written pair, so
  // NIST_A is non-zero only if exactly it was commanded with STW1 bits 0, 3 and 6 set.
  ghost predicate WholeStatus(s: State, w: set<(u16, u16)>)
  {
    var v := Words(s.input);
    && (v == (0, 0) || AnswersOne(v, w))
    && (v.1 != 0 ==> exists p :: p in w && Enables(p.0) && p.1 == v.1 && v.0 == 0x0F37)
  }

  // In every run, with frames lost, duplicated and reordered, as long as the two frame IDs differ
  // or the adapter does not loop frames back
  lemma StatusIsWhole(l: Link, states: seq<State>, events: seq<Event>, k: nat)
    requires Run(l, states, events) && l.Distinct() && k < |states|
    ensures WholeStatus(states[k], Written(events, k))
  {
    RunInv(l, states, events, k);
    var w, s := Written(events, k), states[k];
    if s.input == Zeros(4) {
      ZeroWords();
    } else {
      var v: (u16, u16) :| AnswersOne(v, w) && s.input == Telegram1(v.0, v.1);
      TelegramReadsBack(v.0, v.1);
      var p :| p in w && v == Status(p.0, p.1);
      assert v.1 != 0 ==> Enables(p.0) && p.1 == v.1;
    }
  }

  // On a looping link whose frame IDs are equal the controller takes its own command for a status;
  // on every other link it holds of all runs.
  lemma StatusIsWholeIff(l: Link)
    ensures (forall states, events, k: nat | Run(l, states, events) && k < |states| ::
               WholeStatus(states[k], Written(events, k)))
            <==> !(l.loops && l.inFid == l.outFid)
  {
    if l.Distinct() {
      forall states, events, k: nat | Run(l, states, events) && k < |states|
        ensures WholeStatus(states[k], Written(events, k))
      {
        StatusIsWhole(l, states, events, k);
      }
    } else {
      EchoRun(l);
    }
  }

  lemma EchoRun(l: Link)
    requires l.loops && l.inFid == l.outFid
    ensures exists states, events, k: nat ::
              Run(l, states, events) && k < |states| && !WholeStatus(states[k], Written(events, k))
  {
    hide OutputFrame, Padded, Telegram1, Status, GetBe16, GetLe16;
    var s0 := Initial(true);
    var own := OutputOnWire(l, Telegram1(0, 1), 0);
    var events := [DriveSetpoint(0, 1), ControllerSends(0), ControllerGets(own)];
    var s1 := Next(l, s0, events[0]);
    var s2 := Next(l, s1, events[1]);
    var s3 := Next(l, s2, events[2]);
    var states := [s0, s1, s2, s3];
    OutputFields(l.devMac, l.ctrlMac, l.outFid, 0x80, 0, 1, 0);
    assert own in s2.commands;
    assert Run(l, states, events);
    WordsAt(own, s3.input);
    assert Words(s3.input) == (0, 1);
    assert !WholeStatus(states[3], Written(events, 3));
  }

  lemma WordsAt(f: bytes, t: Telegram)
    requires |f| >= 21 && t == f[17..21]
    ensures Words(t) == (GetLe16(f, 17), GetLe16(f, 19))
  {
  }

  lemma ZeroWords()
    ensures Words(Zeros(4)) == (0, 0)
  {
  }

  // ---------- progress ----------

  // On a cyclic link every command sent reaches the drive whole.
  lemma DriveObeys(l: Link, s: State, a: u16, b: u16, cc: u16)
    requires l.cyclic && l.outFid != 0xFEFE && l.outFid != 0xFEFD
    ensures var d := Next(l, s, DriveGets(OutputOnWire(l, Telegram1(a, b), cc))).drive;
            && d.stw1 == a && d.nsoll == b && d.autoSim == s.drive.autoSim
            && (d.autoSim ==> (d.zsw1, d.nist) == Status(a, b))
  {
    DriveTakesSetpoint(s.drive, l.devMac, l.ctrlMac, l.outFid, 0x80, a, b, cc);
  }

  // From any state of a cyclic link: set, send, receive, answer, receive. The pair read then is the
  // drive's answer to exactly the pair that was set.
  lemma SetpointRoundTrip(l: Link, s: State, a: u16, b: u16, cc1: u16, cc2: u16)
    requires l.cyclic && l.outFid != 0xFEFE && l.outFid != 0xFEFD && s.drive.autoSim
    ensures var s1 := Next(l, s, DriveSetpoint(a, b));
            var command := OutputOnWire(l, s1.output, cc1);
            var s2 := Next(l, s1, ControllerSends(cc1));
            var s3 := Next(l, s2, DriveGets(command));
            var report := InputOnWire(l, s3.drive, cc2);
            var s4 := Next(l, s3, DriveSends(cc2));
            && Enabled(l, s2, DriveGets(command)) && Enabled(l, s4, ControllerGets(report))
            && Words(Next(l, s4, ControllerGets(report)).input) == Status(a, b)
  {
    hide OutputFrame, Padded, InputFrame, Telegram1, Status, GetBe16, GetLe16, DriveReceives, InputReceives, Words;
    var s1 := Next(l, s, DriveSetpoint(a, b));
    DriveObeys(l, s1, a, b, cc1);
    var v := Status(a, b);
    var report := InputFrame(l.ctrlMac, l.devMac, l.inFid, v.0, v.1, cc2);
    InputFields(l.ctrlMac, l.devMac, l.inFid, v.0, v.1, cc2);
    ControllerTakes(s.input, 4, l.inFid, report);
    var r := InputReceives(s.input, 4, l.inFid, report);
    assert r == r[..4] == Telegram1(v.0, v.1);
    TelegramReadsBack(v.0, v.1);
  }
}
