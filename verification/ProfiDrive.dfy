// src/profidrive.c: reading the drive's state and stepping it towards operation.
module ProfiDrive {
  import opened Bytes
  import opened RtFrames

  datatype PDriveState = Unknown | SwitchingOnInhibit | ReadyToSwitchOn | SwitchedOn | Operation | Fault

  function GetState(zsw1: u16): PDriveState
  {
    if zsw1 / 8 % 2 == 1 then Fault
    else
      match zsw1 % 8
      case 0 => SwitchingOnInhibit
      case 1 => ReadyToSwitchOn
      case 3 => SwitchedOn
      case 7 => Operation
      case _ => Unknown
  }

  // 0x06: no coast, no quick stop; 0x0F: with ON and enable operation; 0x7F: every enable bit
  function Stw1ForEnable(state: PDriveState): u16
  {
    match state
    case SwitchingOnInhibit => 0x06
    case ReadyToSwitchOn => 0x0F
    case SwitchedOn => 0x7F
    case Operation => 0x7F
    case _ => 0
  }

  // The states by the four low bits of ZSW1, whatever the others are
  lemma StateTable(high: nat, low: nat)
    requires high < 4096 && low < 16
    ensures GetState(16 * high + low)
         == if low >= 8 then Fault
            else if low == 0 then SwitchingOnInhibit
            else if low == 1 then ReadyToSwitchOn
            else if low == 3 then SwitchedOn
            else if low == 7 then Operation
            else Unknown
  {
    var z := 16 * high + low;
    assert z / 8 == 2 * high + low / 8;
    assert z % 8 == low % 8;
  }

  // What is advised in each of them
  lemma EnableTable()
    ensures Stw1ForEnable(SwitchingOnInhibit) == 0x0006 && Stw1ForEnable(ReadyToSwitchOn) == 0x000F
    ensures Stw1ForEnable(SwitchedOn) == 0x007F && Stw1ForEnable(Operation) == 0x007F
    ensures Stw1ForEnable(Fault) == 0 && Stw1ForEnable(Unknown) == 0
  {
  }

  // The simulated drive is in operation exactly when STW1 bits 0, 3 and 6 are set; otherwise it
  // reports READY_TO_SWITCH_ON, never SWITCHED_ON and never a fault.
  lemma StateOfStatus(stw1: u16, nsoll: u16)
    ensures GetState(Status(stw1, nsoll).0) == if Enables(stw1) then Operation else ReadyToSwitchOn
  {
    var s := Status(stw1, nsoll).0;
    assert s == 0x0F37 || s == 0x0F31 || s == 0x0F21;
  }

  // Only the last of the advised words enables operation.
  lemma AdvisedEnables(state: PDriveState)
    ensures Enables(Stw1ForEnable(state)) <==> state == SwitchedOn || state == Operation
  {
  }

  // ZSW1 after the application answered each status with the advised STW1 k times
  function Enabled(zsw1: u16, nsoll: u16, k: nat): u16
  {
    if k == 0 then zsw1 else Status(Stw1ForEnable(GetState(Enabled(zsw1, nsoll, k - 1))), nsoll).0
  }

  // The advised sequence reaches operation against the simulator iff the drive already reported
  // SWITCHED_ON or OPERATION: from READY_TO_SWITCH_ON it stays there for ever.
  lemma {:induction false} EnableReachesOperationIff(zsw1: u16, nsoll: u16, k: nat)
    requires k > 0
    ensures GetState(Enabled(zsw1, nsoll, k)) == Operation
            <==> GetState(zsw1) == SwitchedOn || GetState(zsw1) == Operation
  {
    hide Status, Enables, GetState, Stw1ForEnable;
    var before := Enabled(zsw1, nsoll, k - 1);
    AdvisedEnables(GetState(before));
    StateOfStatus(Stw1ForEnable(GetState(before)), nsoll);
    if k > 1 {
      EnableReachesOperationIff(zsw1, nsoll, k - 1);
      var earlier := GetState(Enabled(zsw1, nsoll, k - 2));
      StateOfStatus(Stw1ForEnable(earlier), nsoll);
      AdvisedEnables(earlier);
    }
  }
}
