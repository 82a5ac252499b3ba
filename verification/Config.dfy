// The rack of drive objects a device is configured with.
module Config {
  datatype DriveObject = DriveObject(slot: nat, subslot: nat, inputLength: nat, outputLength: nat)

  // `legacy` are the single-telegram fields used when the rack is empty
  datatype DeviceConfig = DeviceConfig(driveObjects: seq<DriveObject>, legacy: DriveObject)
  {
    function Effective(): (dos: seq<DriveObject>)
      ensures dos != []
      ensures driveObjects != [] ==> dos == driveObjects
      ensures driveObjects == [] ==> |dos| == 1 && dos[0] == legacy
    {
      if driveObjects != [] then driveObjects else [legacy]
    }

    function TotalInputLength(): nat { SumInputs(Effective()) }

    function TotalOutputLength(): nat { SumOutputs(Effective()) }
  }

  function SumInputs(dos: seq<DriveObject>): nat
  {
    if dos == [] then 0 else dos[0].inputLength + SumInputs(dos[1..])
  }

  function SumOutputs(dos: seq<DriveObject>): nat
  {
    if dos == [] then 0 else dos[0].outputLength + SumOutputs(dos[1..])
  }
}
