/** The option state machine of args_to_config in ykpers-args.c.

    An option is what getopt hands over, with its argument already read: whether a text is a valid hexadecimal string or
    number, and whether prompting for one succeeds, is part of the option. */
module Args {
  import opened Bits
  import opened YkConfig
  import opened JsonConfig

  /** An argument of -o: one of the two mode options, a flag switched on or off, or a value. */
  datatype Setting =
    | ModeOption(chalResp: bool)
    | FlagOption(table: Table, flag: byte, capability: Capability, on: bool)
    | UidOption(valid: bool)
    | ImfOption(valid: bool)
    | ValueOption(valid: bool)

  datatype Opt =
    | UpdateOpt
    | SlotOpt(second: bool)
    | SwapOpt
    | ZapOpt
    | NdefOpt
    | UsbModeOpt(valid: bool)
    | ScanMapOpt(valid: bool)
    | BareScanMapOpt
    | DeviceInfoOpt(valid: bool)
    | SetOpt(setting: Setting)
    | ValueOpt(valid: bool)
    | UsageOpt

  const TKTFLAG_UPDATE_MASK: byte := 0x3f
  const CFGFLAG_UPDATE_MASK: byte := 0x0c
  const EXTFLAG_UPDATE_MASK: byte := 0xff

  /** The configuration's command and flags, and the local variables of the loop. */
  datatype State = State(command: nat, f: Flags, slot: bool, mode: bool, option: bool, swap: bool, update: bool,
                         ndef: bool, usb: bool, scan: bool, device: bool, zap: bool)

  function Configure(v: Firmware, s: State, command: nat): Option<State> {
    if CommandAllowed(v, command) then Some(s.(command := command)) else None
  }

  /** The flags that choosing a slot switches on by default. */
  function SlotDefaults(v: Firmware, f: Flags, second: bool, update: bool): Flags {
    var t := SetFlag(v, f.tkt, TKTFLAG_APPEND_CR, TicketMods);
    if update then Flags(t, f.cfg, SetFlag(v, f.ext, EXTFLAG_ALLOW_UPDATE, Update))
    else if second then
      var c0 := SetFlag(v, f.cfg, CFGFLAG_STATIC_TICKET, Static);
      var c1 := SetFlag(v, c0, CFGFLAG_STRONG_PW1, StaticExtras);
      var c2 := SetFlag(v, c1, CFGFLAG_STRONG_PW2, StaticExtras);
      Flags(t, SetFlag(v, c2, CFGFLAG_MAN_UPDATE, StaticExtras), f.ext)
    else Flags(t, f.cfg, f.ext)
  }

  function SlotCommand(second: bool, update: bool): nat {
    if update then if second then SLOT_UPDATE2 else SLOT_UPDATE1
    else if second then SLOT_CONFIG2 else SLOT_CONFIG
  }

  function Clear(flags: byte, flag: byte): byte { flags & !flag }

  function Switch(flags: byte, flag: byte, on: bool): byte { if on then Union(flags, flag) else Clear(flags, flag) }

  function ApplySetting(v: Firmware, f: Flags, o: Setting): Option<Flags> {
    match o
    case ModeOption(chalResp) =>
      if Capable(v, if chalResp then ChalResp else Oath)
      then Some(f.(tkt := Union(f.tkt, if chalResp then TKTFLAG_CHAL_RESP else TKTFLAG_OATH_HOTP))) else None
    case FlagOption(table, flag, c, on) =>
      if !Capable(v, c) then None
      else
        Some(match table
             case TicketFlags => f.(tkt := Switch(f.tkt, flag, on))
             case ConfigFlags => f.(cfg := Switch(f.cfg, flag, on))
             case ExtendedFlags => f.(ext := Switch(f.ext, flag, on)))
    case UidOption(valid) => if valid && !Has(f.tkt, TKTFLAG_OATH_HOTP) then Some(f) else None
    case ImfOption(valid) => if Has(f.tkt, TKTFLAG_OATH_HOTP) && valid && Capable(v, OathImf) then Some(f) else None
    case ValueOption(valid) => if valid then Some(f) else None
  }

  /** One option; no state when it is refused. */
  function Step(v: Firmware, s: State, o: Opt): Option<State> {
    match o
    case UpdateOpt => if s.slot || s.swap || s.ndef then None else Some(s.(update := true))
    case SlotOpt(second) =>
      if s.slot || s.option || s.swap then None
      else
        var t := Configure(v, s.(f := SlotDefaults(v, s.f, second, s.update)), SlotCommand(second, s.update));
        if t.None? then None else Some(t.value.(slot := true))
    case SwapOpt =>
      if s.slot || s.option || s.update || s.ndef || s.zap || s.usb || s.scan || s.device then None
      else Configure(v, s.(swap := true), SLOT_SWAP)
    case ZapOpt => if s.swap || s.update || s.ndef || s.usb || s.scan || s.device then None else Some(s.(zap := true))
    case NdefOpt =>
      if s.swap || s.update || s.option || s.zap || s.usb || s.scan || s.device then None
      else Configure(v, s.(ndef := true), if s.command == SLOT_CONFIG2 then SLOT_NDEF2 else SLOT_NDEF)
    case UsbModeOpt(valid) =>
      if s.slot || s.swap || s.update || s.option || s.ndef || s.zap || s.scan || s.device || !valid then None
      else Configure(v, s.(usb := true), SLOT_DEVICE_CONFIG)
    case ScanMapOpt(valid) =>
      if s.slot || s.swap || s.update || s.option || s.ndef || s.zap || s.usb || s.device || !valid then None
      else Configure(v, s.(scan := true), SLOT_SCAN_MAP)
    case BareScanMapOpt =>
      if s.slot || s.swap || s.update || s.option || s.ndef || s.zap || s.usb then None
      else Configure(v, s.(scan := true), SLOT_SCAN_MAP)
    case DeviceInfoOpt(valid) =>
      if s.slot || s.swap || s.update || s.option || s.ndef || s.zap || s.usb || s.scan || !valid then None
      else Configure(v, s.(device := true), SLOT_YK4_SET_DEVICE_INFO)
    case SetOpt(o) =>
      if o.ModeOption? && (s.mode || s.option) then None
      else
        var t := if o.ModeOption? then s.(f := CLEARED, mode := true, option := true) else s.(option := true);
        if s.zap || ApplySetting(v, t.f, o).None? then None else Some(t.(f := ApplySetting(v, t.f, o).value))
    case ValueOpt(valid) => if valid then Some(s) else None
    case UsageOpt => None
  }

  function Run(v: Firmware, s: State, os: seq<Opt>): Option<State> {
    if os == [] then Some(s)
    else
      var t := Run(v, s, os[..|os| - 1]);
      if t.None? then None else Step(v, t.value, os[|os| - 1])
  }

  predicate Within(f: Flags) {
    f.tkt & TKTFLAG_UPDATE_MASK == f.tkt && f.cfg & CFGFLAG_UPDATE_MASK == f.cfg && f.ext & EXTFLAG_UPDATE_MASK == f.ext
  }

  /** The checks after the loop; keyFound says that a key could be read, prompted for or generated. */
  predicate Accepts(s: State, keyFound: bool) {
    && (s.slot || s.ndef || s.swap || s.usb || s.scan || s.device)
    && (s.update ==> Within(s.f))
    && (!s.zap && (s.command == SLOT_CONFIG || s.command == SLOT_CONFIG2) ==> keyFound)
  }

  function Start(command: nat, f: Flags): State {
    State(command, f, false, false, false, false, false, false, false, false, false, false)
  }

  /** args_to_config on a list of options: the final state when it returns 1. */
  function Parse(v: Firmware, command: nat, f: Flags, os: seq<Opt>, keyFound: bool): Option<State> {
    var r := Run(v, Start(command, f), os);
    if r.Some? && Accepts(r.value, keyFound) then r else None
  }

  // ---------- what the variables say about the options ----------

  predicate SlotGiven(os: seq<Opt>) { SlotOpt(false) in os || SlotOpt(true) in os }

  predicate ScanMapGiven(os: seq<Opt>) { ScanMapOpt(true) in os || BareScanMapOpt in os }

  /** Each variable says that its option was given. */
  predicate Reflects(s: State, os: seq<Opt>) {
    && s.slot == SlotGiven(os)
    && s.swap == (SwapOpt in os)
    && s.update == (UpdateOpt in os)
    && s.ndef == (NdefOpt in os)
    && s.usb == (UsbModeOpt(true) in os)
    && s.scan == ScanMapGiven(os)
    && s.device == (DeviceInfoOpt(true) in os)
    && s.zap == (ZapOpt in os)
  }

  predicate IsSlotCommand(c: nat) { c == SLOT_CONFIG || c == SLOT_CONFIG2 || c == SLOT_UPDATE1 || c == SLOT_UPDATE2 }

  /** What every reachable state keeps. */
  predicate Inv(s: State) {
    && (s.swap ==> s.command == SLOT_SWAP)
    && (s.swap ==> !s.slot && !s.update && !s.zap && !s.ndef && !s.usb && !s.scan && !s.device)
    && (s.zap ==> !s.ndef && !s.usb && !s.scan && !s.device)
    && (s.slot && !s.ndef ==> IsSlotCommand(s.command))
    && (s.usb ==> !s.scan && !s.device && !s.ndef)
    && (s.usb && !s.slot ==> s.command == SLOT_DEVICE_CONFIG)
    && (s.scan && !s.slot ==> s.command == SLOT_SCAN_MAP)
    && (s.device && !s.slot && !s.scan ==> s.command == SLOT_YK4_SET_DEVICE_INFO)
    && (s.slot && s.update ==> s.command == SLOT_UPDATE1 || s.command == SLOT_UPDATE2)
    && (s.scan || s.device || s.update ==> !s.ndef)
  }

  lemma StepKeepsInv(v: Firmware, s: State, o: Opt)
    requires Inv(s) && Step(v, s, o).Some?
    ensures Inv(Step(v, s, o).value)
  {
    hide CommandAllowed, SlotDefaults, ApplySetting;
  }

  /** Each variable changes only with its own option. */
  predicate Marks(s: State, o: Opt, t: State) {
    && t.slot == (s.slot || o.SlotOpt?)
    && t.swap == (s.swap || o.SwapOpt?)
    && t.update == (s.update || o.UpdateOpt?)
    && t.ndef == (s.ndef || o.NdefOpt?)
    && t.usb == (s.usb || (o.UsbModeOpt? && o.valid))
    && t.scan == (s.scan || (o.ScanMapOpt? && o.valid) || o.BareScanMapOpt?)
    && t.device == (s.device || (o.DeviceInfoOpt? && o.valid))
    && t.zap == (s.zap || o.ZapOpt?)
  }

  lemma SetMarks(v: Firmware, s: State, o: Setting)
    requires Step(v, s, SetOpt(o)).Some?
    ensures Marks(s, SetOpt(o), Step(v, s, SetOpt(o)).value)
  {
    hide ApplySetting;
  }

  lemma SlotMarks(v: Firmware, s: State, o: Opt)
    requires Step(v, s, o).Some? && (o.SlotOpt? || o.SwapOpt? || o.NdefOpt?)
    ensures Marks(s, o, Step(v, s, o).value)
  {
    hide CommandAllowed, SlotDefaults;
  }

  lemma DeviceMarks(v: Firmware, s: State, o: Opt)
    requires Step(v, s, o).Some? && (o.UsbModeOpt? || o.ScanMapOpt? || o.BareScanMapOpt? || o.DeviceInfoOpt?)
    ensures Marks(s, o, Step(v, s, o).value)
  {
    hide CommandAllowed;
  }

  lemma PlainMarks(v: Firmware, s: State, o: Opt)
    requires Step(v, s, o).Some? && (o.UpdateOpt? || o.ZapOpt? || o.ValueOpt?)
    ensures Marks(s, o, Step(v, s, o).value)
  {
  }

  lemma StepMarks(v: Firmware, s: State, o: Opt)
    requires Step(v, s, o).Some?
    ensures Marks(s, o, Step(v, s, o).value)
  {
    hide Marks, CommandAllowed, SlotDefaults, ApplySetting, Configure;
    if o.SetOpt? {
      SetMarks(v, s, o.setting);
    } else if o.SlotOpt? || o.SwapOpt? || o.NdefOpt? {
      SlotMarks(v, s, o);
    } else if o.UsbModeOpt? || o.ScanMapOpt? || o.BareScanMapOpt? || o.DeviceInfoOpt? {
      DeviceMarks(v, s, o);
    } else if !o.UsageOpt? {
      PlainMarks(v, s, o);
    }
  }

  lemma InAppend(os: seq<Opt>, o: Opt, x: Opt)
    ensures x in os + [o] <==> x in os || x == o
  {
    if x in os {
      var i :| 0 <= i < |os| && os[i] == x;
      assert (os + [o])[i] == x;
    }
    assert (os + [o])[|os|] == o;
  }

  lemma MarksReflect(s: State, os: seq<Opt>, o: Opt, t: State)
    requires Reflects(s, os) && Marks(s, o, t)
    ensures Reflects(t, os + [o])
  {
    InAppend(os, o, SlotOpt(false));
    InAppend(os, o, SlotOpt(true));
    InAppend(os, o, SwapOpt);
    InAppend(os, o, UpdateOpt);
    InAppend(os, o, NdefOpt);
    InAppend(os, o, UsbModeOpt(true));
    InAppend(os, o, ScanMapOpt(true));
    InAppend(os, o, BareScanMapOpt);
    InAppend(os, o, DeviceInfoOpt(true));
    InAppend(os, o, ZapOpt);
  }

  lemma {:induction false} RunKeeps(v: Firmware, s: State, os: seq<Opt>)
    requires Inv(s) && Reflects(s, []) && Run(v, s, os).Some?
    ensures Inv(Run(v, s, os).value) && Reflects(Run(v, s, os).value, os)
  {
    hide Inv, Reflects, Marks, Step;
    if os != [] {
      var front := os[..|os| - 1];
      RunKeeps(v, s, front);
      StepKeepsInv(v, Run(v, s, front).value, os[|os| - 1]);
      StepMarks(v, Run(v, s, front).value, os[|os| - 1]);
      MarksReflect(Run(v, s, front).value, front, os[|os| - 1], Run(v, s, os).value);
      assert front + [os[|os| - 1]] == os;
    }
  }

  // ---------- accepted runs ----------

  lemma ParseKeeps(v: Firmware, command: nat, f: Flags, os: seq<Opt>, keyFound: bool)
    requires Parse(v, command, f, os, keyFound).Some?
    ensures
      var s := Parse(v, command, f, os, keyFound).value;
      Inv(s) && Reflects(s, os) && Accepts(s, keyFound)
  {
    RunKeeps(v, Start(command, f), os);
    hide Run, Inv, Accepts;
  }

  /** In every accepted run, wherever it stands, -x excludes slots, update, zap, NDEF, USB mode, scan map and device
      info, and the command is the swap. */
  lemma SwapExcludes(v: Firmware, command: nat, f: Flags, os: seq<Opt>, keyFound: bool)
    requires Parse(v, command, f, os, keyFound).Some? && SwapOpt in os
    ensures !SlotGiven(os) && UpdateOpt !in os && ZapOpt !in os && NdefOpt !in os && UsbModeOpt(true) !in os
    ensures !ScanMapGiven(os) && DeviceInfoOpt(true) !in os
    ensures Parse(v, command, f, os, keyFound).value.command == SLOT_SWAP
  {
    ParseKeeps(v, command, f, os, keyFound);
    hide Parse, Accepts;
  }

  /** Every accepted run with -z has chosen a slot and ends with a slot configuration or update command. */
  lemma ZapNeedsSlot(v: Firmware, command: nat, f: Flags, os: seq<Opt>, keyFound: bool)
    requires Parse(v, command, f, os, keyFound).Some? && ZapOpt in os
    ensures SlotGiven(os) && SwapOpt !in os && NdefOpt !in os && UsbModeOpt(true) !in os && !ScanMapGiven(os)
    ensures IsSlotCommand(Parse(v, command, f, os, keyFound).value.command)
  {
    ParseKeeps(v, command, f, os, keyFound);
    hide Parse;
  }

  /** An accepted update of a slot is sent as an update and changes only flags that an update may change. */
  lemma UpdateIsUpdate(v: Firmware, command: nat, f: Flags, os: seq<Opt>, keyFound: bool)
    requires Parse(v, command, f, os, keyFound).Some? && UpdateOpt in os && SlotGiven(os)
    ensures
      var s := Parse(v, command, f, os, keyFound).value;
      (s.command == SLOT_UPDATE1 || s.command == SLOT_UPDATE2) && Within(s.f)
  {
    ParseKeeps(v, command, f, os, keyFound);
    hide Parse, Within;
  }

  /** A USB mode, scan map or device info is sent exactly when no slot is chosen after it (nor, for device info, a
      scan map asked for without an argument): the code refuses the other order only. */
  lemma SingleCommandExactlyWhen(v: Firmware, command: nat, f: Flags, os: seq<Opt>, keyFound: bool)
    requires Parse(v, command, f, os, keyFound).Some?
    ensures
      var c := Parse(v, command, f, os, keyFound).value.command;
      && (UsbModeOpt(true) in os ==> (c == SLOT_DEVICE_CONFIG <==> !SlotGiven(os)))
      && (ScanMapGiven(os) ==> (c == SLOT_SCAN_MAP <==> !SlotGiven(os)))
      && (DeviceInfoOpt(true) in os ==> (c == SLOT_YK4_SET_DEVICE_INFO <==> !SlotGiven(os) && !ScanMapGiven(os)))
  {
    ParseKeeps(v, command, f, os, keyFound);
    hide Parse, Accepts;
  }

  /** The other order is accepted: -m then -1 programs the slot, and -D then a bare -S sends the scan map. */
  lemma CombinationsAccepted(v: Firmware, f: Flags)
    requires v.major == 5
    ensures
      var r := Parse(v, 0, f, [UsbModeOpt(true), SlotOpt(false)], true);
      r.Some? && r.value.usb && r.value.command == SLOT_CONFIG
    ensures
      var r := Parse(v, 0, f, [DeviceInfoOpt(true), BareScanMapOpt], true);
      r.Some? && r.value.device && r.value.command == SLOT_SCAN_MAP
  {
    hide Step, Run;
    UsbModeThenSlot(v, Start(0, f));
    TwoSteps(v, Start(0, f), UsbModeOpt(true), SlotOpt(false));
    DeviceInfoThenScanMap(v, Start(0, f));
    TwoSteps(v, Start(0, f), DeviceInfoOpt(true), BareScanMapOpt);
  }

  lemma UsbModeThenSlot(v: Firmware, s: State)
    requires v.major == 5 && s == Start(s.command, s.f)
    ensures
      var t := Step(v, s, UsbModeOpt(true));
      t.Some? && var r := Step(v, t.value, SlotOpt(false));
      r.Some? && r.value.usb && r.value.slot && !r.value.update && r.value.command == SLOT_CONFIG
  {
    hide SlotDefaults;
  }

  lemma DeviceInfoThenScanMap(v: Firmware, s: State)
    requires v.major == 5 && s == Start(s.command, s.f)
    ensures
      var t := Step(v, s, DeviceInfoOpt(true));
      t.Some? && var r := Step(v, t.value, BareScanMapOpt);
      r.Some? && r.value.device && r.value.scan && !r.value.update && r.value.command == SLOT_SCAN_MAP
  {
    hide SlotDefaults;
  }

  lemma TwoSteps(v: Firmware, s: State, o1: Opt, o2: Opt)
    requires Step(v, s, o1).Some?
    ensures Run(v, s, [o1, o2]) == Step(v, Step(v, s, o1).value, o2)
  {
    hide Step;
    assert [o1, o2][..1] == [o1] && [o1][..0] == [];
    assert Run(v, s, [o1]) == Step(v, s, o1);
  }

  // ---------- the code ----------

  lemma SetStep(v: Firmware, s: State, o: Setting)
    ensures Step(v, s, SetOpt(o)) ==
      if (o.ModeOption? && (s.mode || s.option)) || s.zap then None
      else
        var f := if o.ModeOption? then CLEARED else s.f;
        var g := ApplySetting(v, f, o);
        if g.None? then None else Some(s.(mode := s.mode || o.ModeOption?, option := true, f := g.value))
  {
    hide ApplySetting;
  }

  /** The variables of args_to_config, with the configuration they work on. */
  class Parser {
    const cfg: Config
    var slotChosen: bool
    var modeChosen: bool
    var optionSeen: bool
    var swapSeen: bool
    var updateSeen: bool
    var ndefSeen: bool
    var usbModeSeen: bool
    var scanMapSeen: bool
    var deviceInfoSeen: bool
    var zap: bool

    constructor (cfg: Config)
      ensures this.cfg == cfg && View() == Start(cfg.command, Flags(cfg.tktFlags, cfg.cfgFlags, cfg.extFlags))
    {
      this.cfg := cfg;
      slotChosen, modeChosen, optionSeen, swapSeen, updateSeen := false, false, false, false, false;
      ndefSeen, usbModeSeen, scanMapSeen, deviceInfoSeen, zap := false, false, false, false, false;
    }

    function View(): State
      reads this, cfg
    {
      State(cfg.command, Flags(cfg.tktFlags, cfg.cfgFlags, cfg.extFlags), slotChosen, modeChosen, optionSeen, swapSeen,
            updateSeen, ndefSeen, usbModeSeen, scanMapSeen, deviceInfoSeen, zap)
    }

    /** The flags that -1 and -2 switch on. */
    method SetDefaults(second: bool)
      modifies cfg`tktFlags, cfg`cfgFlags, cfg`extFlags
      ensures Flags(cfg.tktFlags, cfg.cfgFlags, cfg.extFlags)
        == SlotDefaults(cfg.version, old(Flags(cfg.tktFlags, cfg.cfgFlags, cfg.extFlags)), second, updateSeen)
    {
      hide SetFlag;
      var v := cfg.version;
      cfg.tktFlags := SetFlag(v, cfg.tktFlags, TKTFLAG_APPEND_CR, TicketMods);
      if updateSeen {
        cfg.extFlags := SetFlag(v, cfg.extFlags, EXTFLAG_ALLOW_UPDATE, Update);
      } else if second {
        cfg.cfgFlags := SetFlag(v, cfg.cfgFlags, CFGFLAG_STATIC_TICKET, Static);
        cfg.cfgFlags := SetFlag(v, cfg.cfgFlags, CFGFLAG_STRONG_PW1, StaticExtras);
        cfg.cfgFlags := SetFlag(v, cfg.cfgFlags, CFGFLAG_STRONG_PW2, StaticExtras);
        cfg.cfgFlags := SetFlag(v, cfg.cfgFlags, CFGFLAG_MAN_UPDATE, StaticExtras);
      }
    }

    /** -1 and -2. */
    method ChooseSlot(second: bool) returns (ok: bool)
      modifies this`slotChosen, cfg`command, cfg`tktFlags, cfg`cfgFlags, cfg`extFlags
      ensures var r := Step(cfg.version, old(View()), SlotOpt(second)); ok == r.Some? && (ok ==> View() == r.value)
    {
      hide CommandAllowed, SlotDefaults, ApplySetting, Capable;
      if slotChosen || optionSeen || swapSeen {
        return false;
      }
      SetDefaults(second);
      var command;
      if updateSeen {
        command := if second then SLOT_UPDATE2 else SLOT_UPDATE1;
      } else if !second {
        command := SLOT_CONFIG;
      } else {
        command := SLOT_CONFIG2;
      }
      ok := cfg.ConfigureCommand(command);
      if ok {
        slotChosen := true;
      }
    }

    /** -u, -x, -z and -n. */
    method Command(o: Opt) returns (ok: bool)
      requires o.UpdateOpt? || o.SwapOpt? || o.ZapOpt? || o.NdefOpt?
      modifies this, cfg`command
      ensures var r := Step(cfg.version, old(View()), o); ok == r.Some? && (ok ==> View() == r.value)
    {
      hide CommandAllowed, ApplySetting, Capable, SlotDefaults, SlotCommand;
      match o
      case UpdateOpt =>
        if slotChosen || swapSeen || ndefSeen {
          return false;
        }
        updateSeen := true;
        ok := true;
      case SwapOpt =>
        if slotChosen || optionSeen || updateSeen || ndefSeen || zap || usbModeSeen || scanMapSeen || deviceInfoSeen {
          return false;
        }
        ok := cfg.ConfigureCommand(SLOT_SWAP);
        swapSeen := true;
      case ZapOpt =>
        if swapSeen || updateSeen || ndefSeen || usbModeSeen || scanMapSeen || deviceInfoSeen {
          return false;
        }
        zap := true;
        ok := true;
      case NdefOpt =>
        if swapSeen || updateSeen || optionSeen || zap || usbModeSeen || scanMapSeen || deviceInfoSeen {
          return false;
        }
        var command := SLOT_NDEF;
        if cfg.command == SLOT_CONFIG {
          command := SLOT_NDEF;
        } else if cfg.command == SLOT_CONFIG2 {
          command := SLOT_NDEF2;
        }
        ok := cfg.ConfigureCommand(command);
        ndefSeen := true;
    }

    /** -m, -S and -D. */
    method DeviceCommand(o: Opt) returns (ok: bool)
      requires o.UsbModeOpt? || o.ScanMapOpt? || o.BareScanMapOpt? || o.DeviceInfoOpt?
      modifies this`usbModeSeen, this`scanMapSeen, this`deviceInfoSeen, cfg`command
      ensures var r := Step(cfg.version, old(View()), o); ok == r.Some? && (ok ==> View() == r.value)
    {
      hide CommandAllowed, ApplySetting, Capable, SlotDefaults, SlotCommand;
      match o
      case UsbModeOpt(valid) =>
        if slotChosen || swapSeen || updateSeen || optionSeen || ndefSeen || zap || scanMapSeen || deviceInfoSeen {
          return false;
        }
        if !valid {
          return false;
        }
        usbModeSeen := true;
        ok := cfg.ConfigureCommand(SLOT_DEVICE_CONFIG);
      case ScanMapOpt(valid) =>
        if slotChosen || swapSeen || updateSeen || optionSeen || ndefSeen || zap || usbModeSeen || deviceInfoSeen {
          return false;
        }
        if !valid {
          return false;
        }
        scanMapSeen := true;
        ok := cfg.ConfigureCommand(SLOT_SCAN_MAP);
      case BareScanMapOpt =>
        if slotChosen || swapSeen || updateSeen || optionSeen || ndefSeen || zap || usbModeSeen {
          return false;
        }
        scanMapSeen := true;
        ok := cfg.ConfigureCommand(SLOT_SCAN_MAP);
      case DeviceInfoOpt(valid) =>
        if slotChosen || swapSeen || updateSeen || optionSeen || ndefSeen || zap || usbModeSeen || scanMapSeen {
          return false;
        }
        if !valid {
          return false;
        }
        ok := cfg.ConfigureCommand(SLOT_YK4_SET_DEVICE_INFO);
        deviceInfoSeen := true;
    }

    /** -o. */
    method Set(o: Setting) returns (ok: bool)
      modifies this`modeChosen, this`optionSeen, cfg`tktFlags, cfg`cfgFlags, cfg`extFlags
      ensures var r := Step(cfg.version, old(View()), SetOpt(o)); ok == r.Some? && (ok ==> View() == r.value)
    {
      hide ApplySetting, Capable, CommandAllowed, SlotDefaults, SlotCommand, Configure, Step;
      SetStep(cfg.version, View(), o);
      if o.ModeOption? {
        if modeChosen || optionSeen {
          return false;
        }
        cfg.tktFlags, cfg.cfgFlags, cfg.extFlags := 0, 0, 0;
        modeChosen := true;
      }
      optionSeen := true;
      if zap {
        return false;
      }
      var g := ApplySetting(cfg.version, Flags(cfg.tktFlags, cfg.cfgFlags, cfg.extFlags), o);
      ok := g.Some?;
      if ok {
        cfg.tktFlags, cfg.cfgFlags, cfg.extFlags := g.value.tkt, g.value.cfg, g.value.ext;
      }
    }

    method Handle(o: Opt) returns (ok: bool)
      modifies this, cfg`command, cfg`tktFlags, cfg`cfgFlags, cfg`extFlags
      ensures var r := Step(cfg.version, old(View()), o); ok == r.Some? && (ok ==> View() == r.value)
    {
      hide Configure, ApplySetting, SlotDefaults;
      match o
      case SlotOpt(second) => ok := ChooseSlot(second);
      case SetOpt(setting) => ok := Set(setting);
      case ValueOpt(valid) => ok := valid;
      case UsageOpt => ok := false;
      case UsbModeOpt(_) => ok := DeviceCommand(o);
      case ScanMapOpt(_) => ok := DeviceCommand(o);
      case BareScanMapOpt => ok := DeviceCommand(o);
      case DeviceInfoOpt(_) => ok := DeviceCommand(o);
      case _ => ok := Command(o);
    }

    /** The whole of args_to_config: what it accepts is what Parse accepts, with the same configuration. */
    method ArgsToConfig(os: seq<Opt>, keyFound: bool) returns (ok: bool)
      requires View() == Start(cfg.command, Flags(cfg.tktFlags, cfg.cfgFlags, cfg.extFlags))
      modifies this, cfg`command, cfg`tktFlags, cfg`cfgFlags, cfg`extFlags
      ensures
        var r := Parse(cfg.version, old(cfg.command), old(Flags(cfg.tktFlags, cfg.cfgFlags, cfg.extFlags)), os,
            keyFound);
        ok == r.Some? && (ok ==> View() == r.value)
    {
      hide Step;
      ghost var start := View();
      var i := 0;
      while i < |os|
        invariant i <= |os| && Run(cfg.version, start, os[..i]) == Some(View())
      {
        assert os[..i + 1][..i] == os[..i];
        ok := Handle(os[i]);
        if !ok {
          RunStops(cfg.version, start, os, i + 1);
          return;
        }
        i := i + 1;
      }
      assert os[..i] == os;
      if !slotChosen && !ndefSeen && !swapSeen && !usbModeSeen && !scanMapSeen && !deviceInfoSeen {
        return false;
      }
      if updateSeen && !Within(Flags(cfg.tktFlags, cfg.cfgFlags, cfg.extFlags)) {
        return false;
      }
      if !zap && (cfg.command == SLOT_CONFIG || cfg.command == SLOT_CONFIG2) && !keyFound {
        return false;
      }
      ok := true;
    }
  }

  /** A refused option refuses the rest. */
  lemma {:induction false} RunStops(v: Firmware, s: State, os: seq<Opt>, i: nat)
    requires i <= |os| && Run(v, s, os[..i]).None?
    ensures Run(v, s, os).None?
    decreases |os| - i
  {
    if i == |os| {
      assert os[..i] == os;
    } else {
      assert os[..i + 1][..i] == os[..i];
      RunStops(v, s, os, i + 1);
    }
  }
}
