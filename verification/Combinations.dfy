/** Which options args_to_config lets stand together, and in which order. */
module Combinations {
  import opened Bits
  import opened YkConfig
  import opened JsonConfig
  import opened Args

  /** An option p that stands anywhere before o makes the code refuse o. */
  predicate Conflicts(p: Opt, o: Opt) {
    match o
    case UpdateOpt => p.SlotOpt? || p.SwapOpt? || p.NdefOpt?
    case SlotOpt(_) => p.SlotOpt? || p.SetOpt? || p.SwapOpt?
    case SwapOpt => p.SlotOpt? || p.SetOpt? || p.UpdateOpt? || p.NdefOpt? || p.ZapOpt? || IsDevice(p)
    case ZapOpt => p.SwapOpt? || p.UpdateOpt? || p.NdefOpt? || IsDevice(p)
    case NdefOpt => p.SwapOpt? || p.UpdateOpt? || p.SetOpt? || p.ZapOpt? || IsDevice(p)
    case UsbModeOpt(_) => IsSlotWork(p) || IsScanMap(p) || p.DeviceInfoOpt?
    case ScanMapOpt(_) => IsSlotWork(p) || p.UsbModeOpt? || p.DeviceInfoOpt?
    case BareScanMapOpt => IsSlotWork(p) || p.UsbModeOpt?
    case DeviceInfoOpt(_) => IsSlotWork(p) || p.UsbModeOpt? || IsScanMap(p)
    case SetOpt(x) => p.ZapOpt? || (x.ModeOption? && p.SetOpt?)
    case ValueOpt(_) => false
    case UsageOpt => false
  }

  predicate IsScanMap(p: Opt) { p.ScanMapOpt? || p.BareScanMapOpt? }

  predicate IsDevice(p: Opt) { p.UsbModeOpt? || IsScanMap(p) || p.DeviceInfoOpt? }

  predicate IsSlotWork(p: Opt) {
    p.SlotOpt? || p.SwapOpt? || p.UpdateOpt? || p.SetOpt? || p.NdefOpt? || p.ZapOpt?
  }

  /** The option is refused for itself: a bad argument, or a command or setting that the firmware does not have. */
  predicate Refused(v: Firmware, s: State, o: Opt) {
    match o
    case UpdateOpt => false
    case SlotOpt(second) => !CommandAllowed(v, SlotCommand(second, s.update))
    case SwapOpt => !CommandAllowed(v, SLOT_SWAP)
    case ZapOpt => false
    case NdefOpt => !CommandAllowed(v, if s.command == SLOT_CONFIG2 then SLOT_NDEF2 else SLOT_NDEF)
    case UsbModeOpt(valid) => !valid || !CommandAllowed(v, SLOT_DEVICE_CONFIG)
    case ScanMapOpt(valid) => !valid || !CommandAllowed(v, SLOT_SCAN_MAP)
    case BareScanMapOpt => !CommandAllowed(v, SLOT_SCAN_MAP)
    case DeviceInfoOpt(valid) => !valid || !CommandAllowed(v, SLOT_YK4_SET_DEVICE_INFO)
    case SetOpt(x) => ApplySetting(v, if x.ModeOption? then CLEARED else s.f, x).None?
    case ValueOpt(valid) => !valid
    case UsageOpt => true
  }

  // ---------- the variables stand for the options before ----------

  /** The variables that make the code refuse o. */
  predicate Blocked(s: State, o: Opt) {
    match o
    case UpdateOpt => s.slot || s.swap || s.ndef
    case SlotOpt(_) => s.slot || s.option || s.swap
    case SwapOpt => s.slot || s.option || s.update || s.ndef || s.zap || s.usb || s.scan || s.device
    case ZapOpt => s.swap || s.update || s.ndef || s.usb || s.scan || s.device
    case NdefOpt => s.swap || s.update || s.option || s.zap || s.usb || s.scan || s.device
    case UsbModeOpt(_) => SlotWork(s) || s.scan || s.device
    case ScanMapOpt(_) => SlotWork(s) || s.usb || s.device
    case BareScanMapOpt => SlotWork(s) || s.usb
    case DeviceInfoOpt(_) => SlotWork(s) || s.usb || s.scan
    case SetOpt(x) => s.zap || (x.ModeOption? && (s.mode || s.option))
    case ValueOpt(_) => false
    case UsageOpt => false
  }

  predicate SlotWork(s: State) { s.slot || s.swap || s.update || s.option || s.ndef || s.zap }

  lemma StepFailsExactlyWhen(v: Firmware, s: State, o: Opt)
    ensures Step(v, s, o).None? <==> Blocked(s, o) || Refused(v, s, o)
  {
    hide CommandAllowed, SlotDefaults, ApplySetting, SlotCommand;
    if o.SetOpt? {
      SetStep(v, s, o.setting);
    }
  }

  lemma BlockedByStep(v: Firmware, s: State, p: Opt, o: Opt)
    requires Step(v, s, p).Some? && (s.mode ==> s.option)
    ensures
      var t := Step(v, s, p).value;
      (t.mode ==> t.option) && (Blocked(t, o) <==> Blocked(s, o) || Conflicts(p, o))
  {
    hide Blocked, Conflicts, Step;
    StepMarks(v, s, p);
    OptionMarks(v, s, p);
    MarksBlock(s, p, Step(v, s, p).value, o);
  }

  lemma OptionMarks(v: Firmware, s: State, p: Opt)
    requires Step(v, s, p).Some?
    ensures
      var t := Step(v, s, p).value;
      && t.option == (s.option || p.SetOpt?)
      && t.mode == (s.mode || (p.SetOpt? && p.setting.ModeOption?))
    ensures p.UsbModeOpt? || p.ScanMapOpt? || p.DeviceInfoOpt? ==> p.valid
  {
    hide CommandAllowed, SlotDefaults, ApplySetting, SlotCommand;
    if p.SetOpt? {
      SetStep(v, s, p.setting);
    }
  }

  lemma MarksBlock(s: State, p: Opt, t: State, o: Opt)
    requires Marks(s, p, t) && (s.mode ==> s.option)
    requires t.option == (s.option || p.SetOpt?) && t.mode == (s.mode || (p.SetOpt? && p.setting.ModeOption?))
    requires p.UsbModeOpt? || p.ScanMapOpt? || p.DeviceInfoOpt? ==> p.valid
    ensures (t.mode ==> t.option) && (Blocked(t, o) <==> Blocked(s, o) || Conflicts(p, o))
  {
    hide Blocked, Conflicts;
    if IsDevice(o) {
      DeviceBlocked(s, p, t, o);
    } else {
      SlotWorkBlocked(s, p, t, o);
    }
  }

  lemma DeviceBlocked(s: State, p: Opt, t: State, o: Opt)
    requires Marks(s, p, t) && t.option == (s.option || p.SetOpt?) && IsDevice(o)
    requires p.UsbModeOpt? || p.ScanMapOpt? || p.DeviceInfoOpt? ==> p.valid
    ensures Blocked(t, o) <==> Blocked(s, o) || Conflicts(p, o)
  {
  }

  lemma SlotWorkBlocked(s: State, p: Opt, t: State, o: Opt)
    requires Marks(s, p, t) && (s.mode ==> s.option) && !IsDevice(o)
    requires t.option == (s.option || p.SetOpt?) && t.mode == (s.mode || (p.SetOpt? && p.setting.ModeOption?))
    requires p.UsbModeOpt? || p.ScanMapOpt? || p.DeviceInfoOpt? ==> p.valid
    ensures Blocked(t, o) <==> Blocked(s, o) || Conflicts(p, o)
  {
  }

  lemma {:induction false} BlockedExactlyWhen(v: Firmware, command: nat, f: Flags, os: seq<Opt>, o: Opt)
    requires Run(v, Start(command, f), os).Some?
    ensures
      var s := Run(v, Start(command, f), os).value;
      (s.mode ==> s.option) && (Blocked(s, o) <==> exists i :: 0 <= i < |os| && Conflicts(os[i], o))
  {
    hide Step, Conflicts, Marks;
    if os != [] {
      var k := |os| - 1;
      var s := Run(v, Start(command, f), os[..k]).value;
      hide Blocked;
      BlockedExactlyWhen(v, command, f, os[..k], o);
      BlockedByStep(v, s, os[k], o);
      assert forall i :: 0 <= i < k ==> os[..k][i] == os[i];
    }
  }

  // ---------- which runs get through ----------

  predicate NoConflict(os: seq<Opt>) { forall i, j :: 0 <= i < j < |os| ==> !Conflicts(os[i], os[j]) }

  predicate NoneRefused(v: Firmware, s: State, os: seq<Opt>) {
    forall j :: 0 <= j < |os| && Run(v, s, os[..j]).Some? ==> !Refused(v, Run(v, s, os[..j]).value, os[j])
  }

  /** The option loop gets through exactly when no option conflicts with one before it and none is refused for
      itself. */
  lemma {:induction false} RunSucceedsExactlyWhen(v: Firmware, command: nat, f: Flags, os: seq<Opt>)
    ensures Run(v, Start(command, f), os).Some? <==> NoConflict(os) && NoneRefused(v, Start(command, f), os)
  {
    hide Step, Conflicts, Refused, Blocked;
    var start := Start(command, f);
    if os != [] {
      var k := |os| - 1;
      RunSucceedsExactlyWhen(v, command, f, os[..k]);
      PrefixOf(v, start, os, k);
      if Run(v, start, os[..k]).Some? {
        BlockedExactlyWhen(v, command, f, os[..k], os[k]);
        StepFailsExactlyWhen(v, Run(v, start, os[..k]).value, os[k]);
        assert forall i :: 0 <= i < k ==> os[..k][i] == os[i];
      }
    }
  }

  lemma PrefixOf(v: Firmware, s: State, os: seq<Opt>, k: nat)
    requires k + 1 == |os|
    ensures NoConflict(os) <==> NoConflict(os[..k]) && forall i :: 0 <= i < k ==> !Conflicts(os[i], os[k])
    ensures NoneRefused(v, s, os) <==>
      NoneRefused(v, s, os[..k]) && (Run(v, s, os[..k]).Some? ==> !Refused(v, Run(v, s, os[..k]).value, os[k]))
  {
    hide Run, Conflicts, Refused;
    assert forall i :: 0 <= i < k ==> os[..k][i] == os[i];
    assert forall j :: 0 <= j < k ==> os[..k][..j] == os[..j];
    assert NoneRefused(v, s, os) ==> NoneRefused(v, s, os[..k]);
  }

  // ---------- what stands beside -m, -S and -D ----------

  /** Beside a USB mode there are no -x, -z, -n, -S and -D; slots, -u and -o come after it. */
  lemma BesideUsbMode(v: Firmware, command: nat, f: Flags, os: seq<Opt>, keyFound: bool, i: nat)
    requires Parse(v, command, f, os, keyFound).Some? && i < |os| && os[i].UsbModeOpt?
    ensures forall j :: 0 <= j < i ==> os[j].UsbModeOpt? || os[j].ValueOpt?
    ensures forall j :: i < j < |os| ==>
      os[j].UsbModeOpt? || os[j].ValueOpt? || os[j].SlotOpt? || os[j].UpdateOpt? || os[j].SetOpt?
  {
    NeverUsage(v, command, f, os, keyFound);
  }

  /** Beside a scan map there are no -x, -z, -n and -m; slots, -u and -o come after it, and device info, if any, before
      it and with a scan map that has no argument. */
  lemma BesideScanMap(v: Firmware, command: nat, f: Flags, os: seq<Opt>, keyFound: bool, i: nat)
    requires Parse(v, command, f, os, keyFound).Some? && i < |os| && IsScanMap(os[i])
    ensures forall j :: 0 <= j < i ==>
      IsScanMap(os[j]) || os[j].ValueOpt? || (os[j].DeviceInfoOpt? && os[i].BareScanMapOpt?)
    ensures forall j :: i < j < |os| ==>
      IsScanMap(os[j]) || os[j].ValueOpt? || os[j].SlotOpt? || os[j].UpdateOpt? || os[j].SetOpt?
  {
    NeverUsage(v, command, f, os, keyFound);
  }

  /** Beside device info there are no -x, -z, -n and -m; slots, -u, -o and scan maps without argument come after it. */
  lemma BesideDeviceInfo(v: Firmware, command: nat, f: Flags, os: seq<Opt>, keyFound: bool, i: nat)
    requires Parse(v, command, f, os, keyFound).Some? && i < |os| && os[i].DeviceInfoOpt?
    ensures forall j :: 0 <= j < i ==> os[j].DeviceInfoOpt? || os[j].ValueOpt?
    ensures forall j :: i < j < |os| ==>
      os[j].DeviceInfoOpt? || os[j].BareScanMapOpt? || os[j].ValueOpt? || os[j].SlotOpt? || os[j].UpdateOpt?
      || os[j].SetOpt?
  {
    NeverUsage(v, command, f, os, keyFound);
  }

  lemma NeverUsage(v: Firmware, command: nat, f: Flags, os: seq<Opt>, keyFound: bool)
    requires Parse(v, command, f, os, keyFound).Some?
    ensures NoConflict(os) && forall j :: 0 <= j < |os| ==> !os[j].UsageOpt?
  {
    hide Step, Conflicts, Refused;
    var start := Start(command, f);
    RunSucceedsExactlyWhen(v, command, f, os);
    forall j | 0 <= j < |os|
      ensures !os[j].UsageOpt?
    {
      if Run(v, start, os[..j]).None? {
        RunStops(v, start, os, j);
      } else {
        assert !Refused(v, Run(v, start, os[..j]).value, os[j]);
        UsageRefused(v, Run(v, start, os[..j]).value);
      }
    }
  }

  lemma UsageRefused(v: Firmware, s: State)
    ensures Refused(v, s, UsageOpt)
  {
  }
}
