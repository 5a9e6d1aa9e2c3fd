/** The configuration record of ykpers: struct config_st with the firmware version it is meant for, the flag bits of
    ykdef.h and the version checks of ykpers.c. */
module YkConfig {
  import opened Bits

  // ---------- flag bits (several share a value in different modes) ----------

  const TKTFLAG_TAB_FIRST: byte := 0x01
  const TKTFLAG_APPEND_TAB1: byte := 0x02
  const TKTFLAG_APPEND_TAB2: byte := 0x04
  const TKTFLAG_APPEND_DELAY1: byte := 0x08
  const TKTFLAG_APPEND_DELAY2: byte := 0x10
  const TKTFLAG_APPEND_CR: byte := 0x20
  const TKTFLAG_OATH_HOTP: byte := 0x40
  const TKTFLAG_CHAL_RESP: byte := 0x40
  const TKTFLAG_PROTECT_CFG2: byte := 0x80

  const CFGFLAG_SEND_REF: byte := 0x01
  const CFGFLAG_TICKET_FIRST: byte := 0x02
  const CFGFLAG_SHORT_TICKET: byte := 0x02
  const CFGFLAG_OATH_HOTP8: byte := 0x02
  const CFGFLAG_PACING_10MS: byte := 0x04
  const CFGFLAG_HMAC_LT64: byte := 0x04
  const CFGFLAG_PACING_20MS: byte := 0x08
  const CFGFLAG_CHAL_BTN_TRIG: byte := 0x08
  const CFGFLAG_ALLOW_HIDTRIG: byte := 0x10
  const CFGFLAG_STRONG_PW1: byte := 0x10
  const CFGFLAG_OATH_FIXED_MODHEX1: byte := 0x10
  const CFGFLAG_STATIC_TICKET: byte := 0x20
  const CFGFLAG_CHAL_YUBICO: byte := 0x20
  const CFGFLAG_CHAL_HMAC: byte := 0x22
  const CFGFLAG_STRONG_PW2: byte := 0x40
  const CFGFLAG_OATH_FIXED_MODHEX2: byte := 0x40
  const CFGFLAG_OATH_FIXED_MODHEX: byte := 0x50
  const CFGFLAG_MAN_UPDATE: byte := 0x80

  const EXTFLAG_SERIAL_BTN_VISIBLE: byte := 0x01
  const EXTFLAG_SERIAL_USB_VISIBLE: byte := 0x02
  const EXTFLAG_SERIAL_API_VISIBLE: byte := 0x04
  const EXTFLAG_USE_NUMERIC_KEYPAD: byte := 0x08
  const EXTFLAG_FAST_TRIG: byte := 0x10
  const EXTFLAG_ALLOW_UPDATE: byte := 0x20
  const EXTFLAG_DORMANT: byte := 0x40
  const EXTFLAG_LED_INV: byte := 0x80

  predicate Has(flags: byte, flag: byte) { flags & flag == flag }

  // ---------- firmware versions ----------

  datatype Firmware = Firmware(major: nat, minor: nat, build: nat) {
    predicate V1() { major == 1 }

    predicate NoV1() { major > 1 }

    predicate V21OrGreater() {
      (major == 2 && minor > 1) || (major == 2 && minor == 1 && build <= 3) || major > 2
    }

    predicate V22OrGreater() { (major == 2 && minor >= 2) || major > 2 }

    predicate V23OrGreater() { (major == 2 && minor >= 3) || major > 2 }

    predicate V24OrGreater() { (major == 2 && minor >= 4) || major > 2 }

    predicate V30() { major == 3 && minor == 0 }

    predicate Neo() { major == 2 && minor == 1 && build >= 4 }

    predicate NeoBefore5() { Neo() && build < 5 }

    predicate NeoAfter6() { Neo() && build > 6 }
  }

  datatype Capability =
    | TicketMods | SlotTwo | Oath | ChalResp | TicketFirst | HidTrig | Static | StaticExtras
    | Serial | SerialApi | Numeric | Fast | Update | Dormant | LedInv | OathImf

  predicate Capable(v: Firmware, c: Capability) {
    match c
    case TicketMods => true
    case SlotTwo => v.NoV1() && !v.Neo()
    case Oath => v.V21OrGreater() || v.Neo()
    case ChalResp => v.V22OrGreater()
    case TicketFirst => v.V1()
    case HidTrig => v.V1()
    case Static => !v.NeoBefore5()
    case StaticExtras => v.NoV1() && !v.NeoBefore5()
    case Serial => v.V22OrGreater()
    case SerialApi => v.V22OrGreater() || v.Neo()
    case Numeric => v.V23OrGreater()
    case Fast => v.V23OrGreater()
    case Update => v.V23OrGreater()
    case Dormant => v.V23OrGreater()
    case LedInv => v.V24OrGreater() && !v.V30()
    case OathImf => v.V22OrGreater() || v.NeoAfter6()
  }

  /** The firmware is at least major.minor.build. */
  predicate From(v: Firmware, major: nat, minor: nat, build: nat) {
    v.major > major || (v.major == major && (v.minor > minor || (v.minor == minor && v.build >= build)))
  }

  /** Firmware 2.1.4 to 2.1.x, the NEO. */
  predicate IsNeo(v: Firmware) { From(v, 2, 1, 4) && !From(v, 2, 2, 0) }

  /** The firmware that has each capability: almost all begin with one version and stay, and the NEO and 3.0 stand
      out. */
  lemma CapableIs(v: Firmware, c: Capability)
    ensures Capable(v, c) ==
      match c
      case TicketMods => true
      case TicketFirst => v.major == 1
      case HidTrig => v.major == 1
      case SlotTwo => From(v, 2, 0, 0) && !IsNeo(v)
      case Static => v != Firmware(2, 1, 4)
      case StaticExtras => From(v, 2, 0, 0) && v != Firmware(2, 1, 4)
      case Oath => From(v, 2, 1, 0)
      case SerialApi => From(v, 2, 1, 4)
      case OathImf => From(v, 2, 1, 7)
      case ChalResp => From(v, 2, 2, 0)
      case Serial => From(v, 2, 2, 0)
      case Numeric => From(v, 2, 3, 0)
      case Fast => From(v, 2, 3, 0)
      case Update => From(v, 2, 3, 0)
      case Dormant => From(v, 2, 3, 0)
      case LedInv => From(v, 2, 4, 0) && !(v.major == 3 && v.minor == 0)
  {
  }

  // ---------- commands ----------

  const SLOT_CONFIG: nat := 1
  const SLOT_CONFIG2: nat := 3
  const SLOT_UPDATE1: nat := 4
  const SLOT_UPDATE2: nat := 5
  const SLOT_SWAP: nat := 6
  const SLOT_NDEF: nat := 8
  const SLOT_NDEF2: nat := 9
  const SLOT_DEVICE_CONFIG: nat := 0x11
  const SLOT_SCAN_MAP: nat := 0x12
  const SLOT_YK4_SET_DEVICE_INFO: nat := 0x15

  /** The commands of each generation of keys. */
  function Commands(v: Firmware): set<nat> {
    if v.major < 2 then {SLOT_CONFIG}
    else if v.Neo() then {SLOT_CONFIG, SLOT_NDEF}
    else if v.major == 2 && v.minor < 3 then {SLOT_CONFIG, SLOT_CONFIG2}
    else {SLOT_CONFIG, SLOT_CONFIG2, SLOT_UPDATE1, SLOT_UPDATE2, SLOT_SWAP} + LaterCommands(v.major)
  }

  function LaterCommands(major: nat): set<nat> {
    if major < 3 then {}
    else if major == 3 then {SLOT_DEVICE_CONFIG, SLOT_SCAN_MAP, SLOT_NDEF, SLOT_NDEF2}
    else if major == 4 then {SLOT_DEVICE_CONFIG, SLOT_SCAN_MAP}
    else if major == 5 then {SLOT_DEVICE_CONFIG, SLOT_SCAN_MAP, SLOT_NDEF, SLOT_NDEF2, SLOT_YK4_SET_DEVICE_INFO}
    else {SLOT_SCAN_MAP, SLOT_NDEF, SLOT_YK4_SET_DEVICE_INFO}
  }

  predicate CommandAllowed(v: Firmware, command: nat) { command in Commands(v) }

  /** The firmware that takes each command, by the numbers of ykcore/ykdef.h; there are no other commands. */
  lemma CommandsAre(v: Firmware, c: nat)
    ensures CommandAllowed(v, c) <==>
      || c == 1
      || (c == 3 && From(v, 2, 0, 0) && !IsNeo(v))
      || ((c == 4 || c == 5 || c == 6) && From(v, 2, 3, 0))
      || (c == 8 && (IsNeo(v) || v.major == 3 || v.major >= 5))
      || (c == 9 && (v.major == 3 || v.major == 5))
      || (c == 0x11 && 3 <= v.major <= 5)
      || (c == 0x12 && 3 <= v.major)
      || (c == 0x15 && 5 <= v.major)
  {
  }

  /** The second slot and updates are commands exactly where they are capabilities, which the flag setters ask for. */
  lemma CommandsMatchCapabilities(v: Firmware)
    ensures CommandAllowed(v, SLOT_CONFIG2) <==> Capable(v, SlotTwo)
    ensures CommandAllowed(v, SLOT_UPDATE1) <==> Capable(v, Update)
    ensures CommandAllowed(v, SLOT_UPDATE2) <==> Capable(v, Update)
    ensures CommandAllowed(v, SLOT_SWAP) <==> Capable(v, Update)
  {
  }

  // ---------- the record ----------

  class Config {
    var version: Firmware
    var command: nat
    var fixed: seq<byte>
    var uid: seq<byte>
    var key: seq<byte>
    var accCode: seq<byte>
    var fixedSize: nat
    var extFlags: byte
    var tktFlags: byte
    var cfgFlags: byte
    var accCodeType: nat

    ghost predicate Valid()
      reads this
    {
      |fixed| == 16 && |uid| == 6 && |key| == 16 && |accCode| == 6
    }

    /** ykp_configure_command: the checks are made command by command, and the device configuration falls through to
        those of the scan map. */
    method ConfigureCommand(c: nat) returns (ok: bool)
      modifies this`command
      ensures ok == CommandAllowed(version, c)
      ensures command == if ok then c else old(command)
    {
      var v := version;
      if c == SLOT_CONFIG {
      } else if c == SLOT_CONFIG2 {
        if !(v.major >= 2) {
          return false;
        } else if v.major == 2 && v.minor == 1 && v.build >= 4 {
          return false;
        }
      } else if c == SLOT_UPDATE1 || c == SLOT_UPDATE2 || c == SLOT_SWAP {
        if !((v.major == 2 && v.minor >= 3) || v.major > 2) {
          return false;
        }
      } else if c == SLOT_DEVICE_CONFIG || c == SLOT_SCAN_MAP {
        if c == SLOT_DEVICE_CONFIG {
          if !(v.major <= 5) {
            return false;
          }
        }
        if !(v.major >= 3) {
          return false;
        }
      } else if c == SLOT_YK4_SET_DEVICE_INFO {
        if !(v.major >= 5) {
          return false;
        }
      } else if c == SLOT_NDEF2 {
        if v.major != 3 && v.major != 5 {
          return false;
        }
      } else if c == SLOT_NDEF {
        if !((v.major == 2 && v.minor == 1 && v.build >= 4) || v.major == 3 || v.major >= 5) {
          return false;
        }
      } else {
        return false;
      }
      command := c;
      ok := true;
    }
  }
}
