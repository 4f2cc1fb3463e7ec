/** src/server/orazio_param.c: the three parameter packets in RAM and their regions in the EEPROM. */
module Param {
  import opened Bytes
  import opened Eeprom
  import opened Framing

  const PROTOCOL_VERSION_OFFSET: nat := 32
  const FIRMWARE_VERSION_OFFSET: nat := 36
  const EEPROM_USED: nat := 139

  datatype ParamType = ParamSystem | ParamJoints | ParamDrive

  /** sizeof of the packed parameter packets. */
  function Size(t: ParamType): nat {
    match t
    case ParamSystem => 25
    case ParamJoints => 36
    case ParamDrive => 38
  }

  function Offset(t: ParamType): nat {
    match t
    case ParamSystem => FIRMWARE_VERSION_OFFSET + 4
    case ParamJoints => FIRMWARE_VERSION_OFFSET + 4 + Size(ParamSystem)
    case ParamDrive => FIRMWARE_VERSION_OFFSET + 4 + Size(ParamSystem) + Size(ParamJoints)
  }

  /** Two bytes ranges of the EEPROM do not meet. */
  predicate Separate(a: nat, n: nat, b: nat, m: nat) {
    a + n <= b || b + m <= a
  }

  /** No two of the five EEPROM regions overlap, and all lie in its first 139 bytes. */
  lemma RegionsSeparate(t: ParamType, u: ParamType)
    ensures t != u ==> Separate(Offset(t), Size(t), Offset(u), Size(u))
    ensures Separate(Offset(t), Size(t), PROTOCOL_VERSION_OFFSET, 4)
    ensures Separate(Offset(t), Size(t), FIRMWARE_VERSION_OFFSET, 4)
    ensures Separate(PROTOCOL_VERSION_OFFSET, 4, FIRMWARE_VERSION_OFFSET, 4)
    ensures Offset(t) + Size(t) <= EEPROM_USED
  {
  }

  /** The parameter packets in RAM. */
  datatype Ram = Ram(system: seq<byte>, joints: seq<byte>, drive: seq<byte>) {
    function Get(t: ParamType): seq<byte> {
      match t
      case ParamSystem => system
      case ParamJoints => joints
      case ParamDrive => drive
    }

    function Set(t: ParamType, bytes: seq<byte>): Ram {
      match t
      case ParamSystem => this.(system := bytes)
      case ParamJoints => this.(joints := bytes)
      case ParamDrive => this.(drive := bytes)
    }

    predicate Valid() {
      |system| == Size(ParamSystem) && |joints| == Size(ParamJoints) && |drive| == Size(ParamDrive)
    }

    function ProtocolVersion(): seq<byte>
      requires Valid()
    {
      system[4..8]
    }

    function FirmwareVersion(): seq<byte>
      requires Valid()
    {
      system[8..12]
    }

    function WithVersions(protocol: seq<byte>, firmware: seq<byte>): (r: Ram)
      requires Valid() && |protocol| == 4 && |firmware| == 4
      ensures r.Valid() && r.ProtocolVersion() == protocol && r.FirmwareVersion() == firmware
      ensures r.system[..4] == system[..4] && r.system[12..] == system[12..] && r.joints == joints && r.drive == drive
    {
      this.(system := system[..4] + protocol + firmware + system[12..])
    }
  }

  /** RAM and EEPROM together. */
  datatype State = State(ram: Ram, cells: seq<byte>) {
    predicate Valid() {
      ram.Valid() && EEPROM_USED <= |cells| < 0x1_0000
    }

    /** The bytes saved last for a class. */
    function Saved(t: ParamType): (bytes: seq<byte>)
      requires Valid()
      ensures |bytes| == Size(t)
    {
      RegionsSeparate(t, t);
      Region(cells, Offset(t), Size(t))
    }

    function AllSaved(): Ram
      requires Valid()
    {
      Ram(Saved(ParamSystem), Saved(ParamJoints), Saved(ParamDrive))
    }

    function Load(t: ParamType): (s: State)
      requires Valid()
      ensures s.Valid()
    {
      this.(ram := ram.Set(t, Saved(t)))
    }

    function Save(t: ParamType): (s: State)
      requires Valid()
      ensures s.Valid()
    {
      RegionsSeparate(t, t);
      this.(cells := Written(cells, Offset(t), ram.Get(t)))
    }

    function Versions(): (seq<byte>, seq<byte>)
      requires Valid()
    {
      (Region(cells, PROTOCOL_VERSION_OFFSET, 4), Region(cells, FIRMWARE_VERSION_OFFSET, 4))
    }

    /** Orazio_paramInit, with `ram` holding the compiled-in defaults. */
    function Init(): (s: State)
      requires Valid()
      ensures s.Valid()
    {
      var (cpv, cfv) := Versions();
      var s := if cpv != ram.ProtocolVersion() then
                 State(ram, Written(Written(cells, PROTOCOL_VERSION_OFFSET, ram.ProtocolVersion()),
                                    FIRMWARE_VERSION_OFFSET, ram.FirmwareVersion()))
                 .Save(ParamSystem).Save(ParamJoints).Save(ParamDrive)
               else Load(ParamSystem).Load(ParamJoints).Load(ParamDrive);
      s.(ram := s.ram.WithVersions(cpv, cfv))
    }
  }

  class ParamStore {
    const eeprom: EEPROM
    var systemParams: seq<byte>
    var jointParams: seq<byte>
    var driveParams: seq<byte>

    ghost function View(): State
      reads this, eeprom.cells
    {
      State(Ram(systemParams, jointParams, driveParams), eeprom.cells[..])
    }

    constructor (eeprom: EEPROM, ram: Ram)
      ensures this.eeprom == eeprom && View() == State(ram, eeprom.cells[..])
    {
      this.eeprom := eeprom;
      systemParams, jointParams, driveParams := ram.system, ram.joints, ram.drive;
    }

    /** Orazio_paramLoad without the re-initialisation of the subsystems. */
    method ParamLoad(code: byte) returns (status: PacketStatus)
      requires View().Valid()
      modifies this
      ensures code == 0 ==> View() == old(View()).Load(ParamSystem)
      ensures code == 1 ==> View() == old(View()).Load(ParamJoints)
      ensures code == 2 ==> View() == old(View()).Load(ParamDrive)
      ensures code > 2 ==> View() == old(View())
      ensures status == if code <= 2 then Success else GenericError
    {
      if code == 0 {
        systemParams := eeprom.Read(Offset(ParamSystem), Size(ParamSystem));
      } else if code == 1 {
        jointParams := eeprom.Read(Offset(ParamJoints), Size(ParamJoints));
      } else if code == 2 {
        driveParams := eeprom.Read(Offset(ParamDrive), Size(ParamDrive));
      } else {
        return GenericError;
      }
      return Success;
    }

    method ParamSave(code: byte) returns (status: PacketStatus)
      requires View().Valid()
      modifies eeprom.cells
      ensures code == 0 ==> View() == old(View()).Save(ParamSystem)
      ensures code == 1 ==> View() == old(View()).Save(ParamJoints)
      ensures code == 2 ==> View() == old(View()).Save(ParamDrive)
      ensures code > 2 ==> View() == old(View())
      ensures status == if code <= 2 then Success else GenericError
    {
      if code == 0 {
        eeprom.Write(Offset(ParamSystem), systemParams);
        return Success;
      } else if code == 1 {
        eeprom.Write(Offset(ParamJoints), jointParams);
        return Success;
      } else if code == 2 {
        eeprom.Write(Offset(ParamDrive), driveParams);
        return Success;
      }
      return GenericError;
    }

    method ParamInit()
      requires View().Valid()
      modifies this, eeprom.cells
      ensures View() == old(View()).Init()
    {
      var cpv := eeprom.Read(PROTOCOL_VERSION_OFFSET, 4);
      var cfv := eeprom.Read(FIRMWARE_VERSION_OFFSET, 4);
      if cpv != systemParams[4..8] {
        eeprom.Write(PROTOCOL_VERSION_OFFSET, systemParams[4..8]);
        eeprom.Write(FIRMWARE_VERSION_OFFSET, systemParams[8..12]);
        var _ := ParamSave(0);
        var _ := ParamSave(1);
        var _ := ParamSave(2);
      } else {
        var _ := ParamLoad(0);
        var _ := ParamLoad(1);
        var _ := ParamLoad(2);
      }
      // the values read, not the ones written
      systemParams := systemParams[..4] + cpv + cfv + systemParams[12..];
    }
  }

  // ---- runs

  /** What happens to the parameters after boot. */
  datatype Op =
    | Edit(t: ParamType, bytes: seq<byte>)  // a parameter packet is copied over the variable
    | DoSave(t: ParamType)
    | DoLoad(t: ParamType)
    | Boot(defaults: Ram)                   // reset: RAM gets the compiled-in defaults, then paramInit

  predicate ValidOp(op: Op) {
    match op
    case Edit(t, bytes) => |bytes| == Size(t)
    case Boot(defaults) => defaults.Valid()
    case _ => true
  }

  function Apply(s: State, op: Op): (s': State)
    requires s.Valid() && ValidOp(op)
    ensures s'.Valid()
  {
    match op
    case Edit(t, bytes) => s.(ram := s.ram.Set(t, bytes))
    case DoSave(t) => s.Save(t)
    case DoLoad(t) => s.Load(t)
    case Boot(defaults) => State(defaults, s.cells).Init()
  }

  function Run(s: State, ops: seq<Op>): (s': State)
    requires s.Valid() && forall k :: 0 <= k < |ops| ==> ValidOp(ops[k])
    ensures s'.Valid()
  {
    if |ops| == 0 then s else Apply(Run(s, ops[..|ops| - 1]), ops[|ops| - 1])
  }

  /** The bytes the RAM variable had when its class was last saved; the initial region if it never was. */
  function LastSaved(s: State, ops: seq<Op>, t: ParamType): (bytes: seq<byte>)
    requires s.Valid() && forall k :: 0 <= k < |ops| ==> ValidOp(ops[k])
    ensures |bytes| == Size(t)
  {
    if |ops| == 0 then s.Saved(t)
    else
      var n := |ops| - 1;
      if ops[n] == DoSave(t) then Run(s, ops[..n]).ram.Get(t) else LastSaved(s, ops[..n], t)
  }

  lemma SaveRegions(s: State, t: ParamType, u: ParamType)
    requires s.Valid()
    ensures s.Save(t).Saved(u) == if u == t then s.ram.Get(t) else s.Saved(u)
    ensures s.Save(t).Versions() == s.Versions()
  {
    RegionsSeparate(t, u);
    RegionsSeparate(u, t);
    ReadBack(s.cells, Offset(t), s.ram.Get(t), Offset(u), Size(u));
    ReadBack(s.cells, Offset(t), s.ram.Get(t), PROTOCOL_VERSION_OFFSET, 4);
    ReadBack(s.cells, Offset(t), s.ram.Get(t), FIRMWARE_VERSION_OFFSET, 4);
  }

  /** After any edits, saves and loads, a class's region holds the bytes of its last save, and loading restores them. */
  lemma {:induction false} LoadRestoresLastSave(s: State, ops: seq<Op>, t: ParamType)
    requires s.Valid() && forall k :: 0 <= k < |ops| ==> ValidOp(ops[k]) && !ops[k].Boot?
    ensures Run(s, ops).Saved(t) == LastSaved(s, ops, t)
    ensures Run(s, ops).Load(t).ram.Get(t) == LastSaved(s, ops, t)
    ensures Run(s, ops).Versions() == s.Versions()
  {
    if |ops| > 0 {
      var n := |ops| - 1;
      LoadRestoresLastSave(s, ops[..n], t);
      if ops[n].DoSave? {
        SaveRegions(Run(s, ops[..n]), ops[n].t, t);
      }
    }
  }

  /**
   * After a boot the RAM holds the version numbers that were read before anything was written, so it holds
   * those of the firmware exactly if the EEPROM did.
   */
  lemma BootKeepsVersionsRead(s: State)
    requires s.Valid()
    ensures s.Init().ram.ProtocolVersion() == s.Versions().0 && s.Init().ram.FirmwareVersion() == s.Versions().1
    ensures s.Init().ram.ProtocolVersion() == s.ram.ProtocolVersion() <==> s.Versions().0 == s.ram.ProtocolVersion()
    ensures s.Init().ram.FirmwareVersion() == s.ram.FirmwareVersion() <==> s.Versions().1 == s.ram.FirmwareVersion()
  {
  }

  /**
   * Booting leaves the compiled-in protocol version in the EEPROM, and every later boot only reads.  On other contents
   * it also writes the firmware version and all three classes of the RAM, which it otherwise leaves alone.
   */
  lemma BootStampsVersion(s: State)
    requires s.Valid()
    ensures s.Init().Versions().0 == s.ram.ProtocolVersion()
    ensures s.Versions().0 != s.ram.ProtocolVersion() ==>
              s.Init().Versions() == (s.ram.ProtocolVersion(), s.ram.FirmwareVersion())
              && s.Init().ram == s.ram.WithVersions(s.Versions().0, s.Versions().1)
    ensures s.Versions().0 == s.ram.ProtocolVersion() ==>
              s.Init().cells == s.cells && s.Init().ram == s.AllSaved().WithVersions(s.Versions().0, s.Versions().1)
    ensures s.Versions().0 != s.ram.ProtocolVersion() ==> forall t :: s.Init().Saved(t) == s.ram.Get(t)
  {
    var (cpv, cfv) := s.Versions();
    if cpv != s.ram.ProtocolVersion() {
      var protocol := Written(s.cells, PROTOCOL_VERSION_OFFSET, s.ram.ProtocolVersion());
      var stamped := State(s.ram, Written(protocol, FIRMWARE_VERSION_OFFSET, s.ram.FirmwareVersion()));
      ReadBack(s.cells, PROTOCOL_VERSION_OFFSET, s.ram.ProtocolVersion(), PROTOCOL_VERSION_OFFSET, 4);
      ReadBack(protocol, FIRMWARE_VERSION_OFFSET, s.ram.FirmwareVersion(), PROTOCOL_VERSION_OFFSET, 4);
      ReadBack(protocol, FIRMWARE_VERSION_OFFSET, s.ram.FirmwareVersion(), FIRMWARE_VERSION_OFFSET, 4);
      forall t
        ensures s.Init().Saved(t) == s.ram.Get(t) && s.Init().Versions() == stamped.Versions()
      {
        var s1 := stamped.Save(ParamSystem);
        var s2 := s1.Save(ParamJoints);
        SaveRegions(stamped, ParamSystem, t);
        SaveRegions(s1, ParamJoints, t);
        SaveRegions(s2, ParamDrive, t);
      }
      assert s.Init().Versions() == stamped.Versions() by {
        assert s.Init().Saved(ParamSystem) == s.ram.Get(ParamSystem);
      }
    }
  }

  /**
   * Booting on arbitrary EEPROM contents, running any edits, saves and loads, and booting again with
   * the same firmware writes nothing the second time and brings back the last saves.
   */
  lemma SecondBootOnlyReads(cells: seq<byte>, defaults: Ram, ops: seq<Op>)
    requires defaults.Valid() && EEPROM_USED <= |cells| < 0x1_0000
    requires forall k :: 0 <= k < |ops| ==> ValidOp(ops[k]) && !ops[k].Boot?
    ensures var first := State(defaults, cells).Init();
            var before := Run(first, ops);
            var second := State(defaults, before.cells).Init();
            && second.cells == before.cells
            && second.ram == Ram(LastSaved(first, ops, ParamSystem), LastSaved(first, ops, ParamJoints),
                                 LastSaved(first, ops, ParamDrive)).WithVersions(before.Versions().0, before.Versions().1)
  {
    var first := State(defaults, cells).Init();
    var before := Run(first, ops);
    BootStampsVersion(State(defaults, cells));
    forall t
      ensures before.Saved(t) == LastSaved(first, ops, t) && before.Versions() == first.Versions()
    {
      LoadRestoresLastSave(first, ops, t);
    }
    var booted := State(defaults, before.cells);
    assert booted.AllSaved() == before.AllSaved() && booted.Versions() == before.Versions();
    assert before.AllSaved() == Ram(LastSaved(first, ops, ParamSystem), LastSaved(first, ops, ParamJoints),
                                    LastSaved(first, ops, ParamDrive));
    BootStampsVersion(booted);
  }
}
