/** What an option list that gets through leaves in the configuration, in numbers: the command of ykcore/ykdef.h that is
    sent, and each bit of the flags. */
module ArgsMeaning {
  import opened Bits
  import opened YkConfig
  import opened JsonConfig
  import opened FlagBits
  import opened Args
  import opened Combinations

  // ---------- the command ----------

  /** The command after the options, the last one that stands for a command deciding. */
  function CommandAfter(command: nat, os: seq<Opt>): nat {
    if os == [] then command
    else
      var front, o := os[..|os| - 1], os[|os| - 1];
      match o
      case SlotOpt(second) =>
        if UpdateOpt in front then if second then 5 else 4
        else if second then 3 else 1
      case SwapOpt => 6
      case NdefOpt => if CommandAfter(command, front) == 3 then 9 else 8
      case UsbModeOpt(_) => 0x11
      case ScanMapOpt(_) => 0x12
      case BareScanMapOpt => 0x12
      case DeviceInfoOpt(_) => 0x15
      case _ => CommandAfter(command, front)
  }

  lemma {:induction false} CommandIs(v: Firmware, command: nat, f: Flags, os: seq<Opt>)
    requires Run(v, Start(command, f), os).Some?
    ensures Run(v, Start(command, f), os).value.command == CommandAfter(command, os)
  {
    hide Step, Reflects, Inv;
    if os != [] {
      var k := |os| - 1;
      CommandIs(v, command, f, os[..k]);
      StartReflects(command, f);
      RunKeeps(v, Start(command, f), os[..k]);
      var s := Run(v, Start(command, f), os[..k]).value;
      UpdateReflects(s, os[..k]);
      StepCommand(v, s, os[k]);
    }
  }

  lemma StartReflects(command: nat, f: Flags)
    ensures Inv(Start(command, f)) && Reflects(Start(command, f), [])
  {
  }

  lemma UpdateReflects(s: State, os: seq<Opt>)
    requires Reflects(s, os)
    ensures s.update == (UpdateOpt in os)
  {
  }

  lemma StepCommand(v: Firmware, s: State, o: Opt)
    requires Step(v, s, o).Some?
    ensures Step(v, s, o).value.command ==
      match o
      case SlotOpt(second) => (if s.update then if second then 5 else 4 else if second then 3 else 1)
      case SwapOpt => 6
      case NdefOpt => if s.command == 3 then 9 else 8
      case UsbModeOpt(_) => 0x11
      case ScanMapOpt(_) => 0x12
      case BareScanMapOpt => 0x12
      case DeviceInfoOpt(_) => 0x15
      case _ => s.command
  {
    hide CommandAllowed, SlotDefaults, ApplySetting;
    if o.SetOpt? {
      SetStep(v, s, o.setting);
    }
  }

  /** Without -n, a slot is programmed or updated as given, and only one slot is given. */
  lemma SlotIsSent(v: Firmware, command: nat, f: Flags, os: seq<Opt>)
    requires Run(v, Start(command, f), os).Some? && NdefOpt !in os
    ensures
      var c := Run(v, Start(command, f), os).value.command;
      && (SlotOpt(false) in os ==> c == if UpdateOpt in os then 4 else 1)
      && (SlotOpt(true) in os ==> c == if UpdateOpt in os then 5 else 3)
      && !(SlotOpt(false) in os && SlotOpt(true) in os)
  {
    hide Run, Conflicts, Refused;
    RunSucceedsExactlyWhen(v, command, f, os);
    CommandIs(v, command, f, os);
    OneSlot(command, os);
  }

  lemma {:induction false} OneSlot(command: nat, os: seq<Opt>)
    requires NoConflict(os) && NdefOpt !in os
    ensures
      && (SlotOpt(false) in os ==> CommandAfter(command, os) == if UpdateOpt in os then 4 else 1)
      && (SlotOpt(true) in os ==> CommandAfter(command, os) == if UpdateOpt in os then 5 else 3)
      && !(SlotOpt(false) in os && SlotOpt(true) in os)
  {
    hide Conflicts;
    if os != [] {
      var k := |os| - 1;
      var front, o := os[..k], os[k];
      assert os == front + [o];
      FrontHasNone(os);
      OneSlot(command, front);
      InAppend(front, o, SlotOpt(false));
      InAppend(front, o, SlotOpt(true));
      InAppend(front, o, UpdateOpt);
      if SlotGiven(front) {
        AfterSlot(front, o);
      }
    }
  }

  lemma FrontHasNone(os: seq<Opt>)
    requires os != [] && NoConflict(os) && NdefOpt !in os
    ensures
      var k := |os| - 1;
      && NoConflict(os[..k]) && NdefOpt !in os[..k] && !os[k].NdefOpt?
      && forall i :: 0 <= i < k ==> !Conflicts(os[..k][i], os[k])
  {
    hide Conflicts;
  }

  /** Behind a slot there is none of the other options that stand for a command, and no -u. */
  lemma AfterSlot(front: seq<Opt>, o: Opt)
    requires SlotGiven(front) && forall i :: 0 <= i < |front| ==> !Conflicts(front[i], o)
    requires !o.NdefOpt?
    ensures o.ZapOpt? || o.SetOpt? || o.ValueOpt? || o.UsageOpt?
  {
    var i :| 0 <= i < |front| && front[i].SlotOpt?;
    assert !Conflicts(front[i], o);
  }

  // ---------- the flags ----------

  /** Whether a bit is set after the options: a slot switches its defaults on, a mode leaves only its own bit, and a
      flag option sets or clears its flag. */
  predicate BitAfter(f: Flags, os: seq<Opt>, x: Table, bit: byte) {
    if os == [] then HasBit(FlagsIn(f, x), bit)
    else
      var front, o := os[..|os| - 1], os[|os| - 1];
      var before := BitAfter(f, front, x, bit);
      match o
      case SlotOpt(second) => before || IsDefault(second, UpdateOpt in front, x, bit)
      case SetOpt(ModeOption(_)) => x.TicketFlags? && bit == 0x40
      case SetOpt(FlagOption(table, flag, _, on)) => if table == x && HasBit(flag, bit) then on else before
      case _ => before
  }

  /** The return after the code, the permission to update again, or the bits of a static password. */
  predicate IsDefault(second: bool, update: bool, x: Table, bit: byte) {
    match x
    case TicketFlags => bit == 0x20
    case ConfigFlags => second && !update && (bit == 0x20 || bit == 0x10 || bit == 0x40 || bit == 0x80)
    case ExtendedFlags => update && bit == 0x20
  }

  /** The flags of every run that gets through, bit by bit; the firmware plays no part any more. */
  lemma {:induction false} FlagsAre(v: Firmware, command: nat, f: Flags, os: seq<Opt>, x: Table, bit: byte)
    requires Run(v, Start(command, f), os).Some? && SingleBit(bit)
    ensures HasBit(FlagsIn(Run(v, Start(command, f), os).value.f, x), bit) == BitAfter(f, os, x, bit)
  {
    hide Step, Reflects, Inv, HasBit, FlagsIn, SingleBit, IsDefault;
    if os != [] {
      var k := |os| - 1;
      FlagsAre(v, command, f, os[..k], x, bit);
      StartReflects(command, f);
      RunKeeps(v, Start(command, f), os[..k]);
      var s := Run(v, Start(command, f), os[..k]).value;
      UpdateReflects(s, os[..k]);
      StepBit(v, s, os[k], x, bit);
    }
  }

  lemma StepBit(v: Firmware, s: State, o: Opt, x: Table, bit: byte)
    requires Step(v, s, o).Some? && SingleBit(bit)
    ensures
      var before := HasBit(FlagsIn(s.f, x), bit);
      HasBit(FlagsIn(Step(v, s, o).value.f, x), bit) ==
        match o
        case SlotOpt(second) => before || IsDefault(second, s.update, x, bit)
        case SetOpt(ModeOption(_)) => x.TicketFlags? && bit == 0x40
        case SetOpt(FlagOption(table, flag, _, on)) => if table == x && HasBit(flag, bit) then on else before
        case _ => before
  {
    hide CommandAllowed, SlotDefaults, ApplySetting, HasBit, FlagsIn, SingleBit, IsDefault, Commands;
    if o.SetOpt? {
      SetStep(v, s, o.setting);
      SettingBit(v, if o.setting.ModeOption? then CLEARED else s.f, o.setting, x, bit);
    } else if o.SlotOpt? {
      CommandsMatchCapabilities(v);
      DefaultBit(v, s.f, o.second, s.update, x, bit);
    }
  }

  lemma SettingBit(v: Firmware, f: Flags, o: Setting, x: Table, bit: byte)
    requires ApplySetting(v, f, o).Some? && SingleBit(bit) && (o.ModeOption? ==> f == CLEARED)
    ensures
      var before := HasBit(FlagsIn(f, x), bit);
      HasBit(FlagsIn(ApplySetting(v, f, o).value, x), bit) ==
        match o
        case ModeOption(_) => x.TicketFlags? && bit == 0x40
        case FlagOption(table, flag, _, on) => if table == x && HasBit(flag, bit) then on else before
        case _ => before
  {
    hide Capable, Union, Clear, HasBit, SingleBit, Has;
    NothingSet(bit);
    if o.ModeOption? {
      UnionBit(0, 0x40, bit);
      OneBit(0x40, bit);
    } else if o.FlagOption? {
      UnionBit(FlagsIn(f, x), o.flag, bit);
      ClearBit(FlagsIn(f, x), o.flag, bit);
    }
  }

  lemma DefaultBit(v: Firmware, f: Flags, second: bool, update: bool, x: Table, bit: byte)
    requires SingleBit(bit) && (update ==> Capable(v, Update)) && (!update && second ==> Capable(v, SlotTwo))
    ensures HasBit(FlagsIn(SlotDefaults(v, f, second, update), x), bit)
        == (HasBit(FlagsIn(f, x), bit) || IsDefault(second, update, x, bit))
  {
    StaticWithSlotTwo(v);
    assert Capable(v, TicketMods);
    hide Capable, Union, HasBit, SingleBit;
    OneBit(0x20, bit);
    UnionBit(FlagsIn(f, x), 0x20, bit);
    if x.ConfigFlags? && second && !update {
      FourBits(f.cfg, bit);
    }
  }

  lemma StaticWithSlotTwo(v: Firmware)
    ensures Capable(v, SlotTwo) ==> Capable(v, Static) && Capable(v, StaticExtras)
  {
  }

  lemma FourBits(a: byte, bit: byte)
    requires SingleBit(bit)
    ensures HasBit(Union(Union(Union(Union(a, 0x20), 0x10), 0x40), 0x80), bit)
        == (HasBit(a, bit) || bit == 0x20 || bit == 0x10 || bit == 0x40 || bit == 0x80)
  {
    hide Union, HasBit, SingleBit;
    OneBit(0x20, bit);
    OneBit(0x10, bit);
    OneBit(0x40, bit);
    OneBit(0x80, bit);
    UnionBit(a, 0x20, bit);
    UnionBit(Union(a, 0x20), 0x10, bit);
    UnionBit(Union(Union(a, 0x20), 0x10), 0x40, bit);
    UnionBit(Union(Union(Union(a, 0x20), 0x10), 0x40), 0x80, bit);
  }

  lemma ClearBit(a: byte, b: byte, bit: byte)
    requires SingleBit(bit)
    ensures HasBit(Clear(a, b), bit) == (HasBit(a, bit) && !HasBit(b, bit))
  {
  }

  // ---------- acceptance ----------

  /** What the checks after the loop let through: some slot, record, swap or device command; only bits that an update
      may change; and a key for a slot that is programmed anew. */
  lemma AcceptedExactlyWhen(v: Firmware, command: nat, f: Flags, os: seq<Opt>, keyFound: bool)
    requires Run(v, Start(command, f), os).Some?
    ensures Parse(v, command, f, os, keyFound).Some? <==>
      && (SlotGiven(os) || NdefOpt in os || SwapOpt in os || UsbModeOpt(true) in os || ScanMapGiven(os)
          || DeviceInfoOpt(true) in os)
      && (UpdateOpt in os ==> forall x, bit | SingleBit(bit) && BitAfter(f, os, x, bit) :: MayUpdate(x, bit))
      && (ZapOpt !in os && (CommandAfter(command, os) == 1 || CommandAfter(command, os) == 3) ==> keyFound)
  {
    hide Run, Inv, Within, BitAfter, SingleBit, MayUpdate;
    StartReflects(command, f);
    RunKeeps(v, Start(command, f), os);
    CommandIs(v, command, f, os);
    var s := Run(v, Start(command, f), os).value;
    WithinUpdate(s.f);
    hide HasBit, FlagsIn;
    forall x, bit | SingleBit(bit)
      ensures HasBit(FlagsIn(s.f, x), bit) == BitAfter(f, os, x, bit)
    {
      FlagsAre(v, command, f, os, x, bit);
    }
  }

  /** The bits of the update masks. */
  predicate MayUpdate(x: Table, bit: byte) {
    match x
    case TicketFlags => bit != 0x40 && bit != 0x80
    case ConfigFlags => bit == 0x04 || bit == 0x08
    case ExtendedFlags => true
  }

  lemma WithinUpdate(f: Flags)
    ensures Within(f) <==> forall x, bit | SingleBit(bit) && HasBit(FlagsIn(f, x), bit) :: MayUpdate(x, bit)
  {
    hide SingleBit, HasBit, MayUpdate, Within;
    if Within(f) {
      forall x, bit | SingleBit(bit) && HasBit(FlagsIn(f, x), bit)
        ensures MayUpdate(x, bit)
      {
        WithinBit(f, x, bit);
      }
    } else {
      BitOutside(f);
    }
  }

  lemma WithinBit(f: Flags, x: Table, bit: byte)
    requires Within(f) && SingleBit(bit) && HasBit(FlagsIn(f, x), bit)
    ensures MayUpdate(x, bit)
  {
  }

  lemma BitOutside(f: Flags)
    requires !Within(f)
    ensures exists x, bit :: SingleBit(bit) && HasBit(FlagsIn(f, x), bit) && !MayUpdate(x, bit)
  {
    hide SingleBit, HasBit, MayUpdate, FlagsIn;
    if f.tkt & 0x3f != f.tkt {
      TicketOutside(f);
    } else if f.cfg & 0x0c != f.cfg {
      ConfigOutside(f);
    } else {
      AllKept(f.ext);
    }
  }

  lemma AllKept(a: byte)
    ensures a & 0xff == a
  {
  }

  predicate Outside(f: Flags, x: Table, bit: byte) {
    SingleBit(bit) && HasBit(FlagsIn(f, x), bit) && !MayUpdate(x, bit)
  }

  lemma TicketOutside(f: Flags)
    requires f.tkt & 0x3f != f.tkt
    ensures exists x, bit :: SingleBit(bit) && HasBit(FlagsIn(f, x), bit) && !MayUpdate(x, bit)
  {
    assert Outside(f, TicketFlags, 0x40) || Outside(f, TicketFlags, 0x80);
  }

  lemma ConfigOutside(f: Flags)
    requires f.cfg & 0x0c != f.cfg
    ensures exists x, bit :: SingleBit(bit) && HasBit(FlagsIn(f, x), bit) && !MayUpdate(x, bit)
  {
    assert Outside(f, ConfigFlags, 0x01) || Outside(f, ConfigFlags, 0x02) || Outside(f, ConfigFlags, 0x10)
        || Outside(f, ConfigFlags, 0x20) || Outside(f, ConfigFlags, 0x40) || Outside(f, ConfigFlags, 0x80);
  }
}
