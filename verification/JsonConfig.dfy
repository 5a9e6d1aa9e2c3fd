/** Export and import of a configuration as JSON: ykpers-json.c over the tables of ykpers_lcl.c.

    A JSON object is a map.  The member names of the options are an enumeration; JsonText gives their spelling. */
module JsonConfig {
  import opened Bits
  import opened YkConfig

  // ---------- modes ----------

  const MODE_CHAL_HMAC: byte := 0x01
  const MODE_OATH_HOTP: byte := 0x02
  const MODE_OTP_YUBICO: byte := 0x04
  const MODE_CHAL_YUBICO: byte := 0x08
  const MODE_STATIC_TICKET: byte := 0x10
  const MODE_CHAL_RESP: byte := 0x09
  const MODE_OUTPUT: byte := 0x16
  const MODE_ALL: byte := 0xff

  predicate IsMode(mode: byte) {
    mode == MODE_CHAL_HMAC || mode == MODE_OATH_HOTP || mode == MODE_OTP_YUBICO || mode == MODE_CHAL_YUBICO
    || mode == MODE_STATIC_TICKET
  }

  datatype Flags = Flags(tkt: byte, cfg: byte, ext: byte)

  /** The mode that the flags show; OATH_HOTP and CHAL_RESP share a bit, and CHAL_YUBICO is part of CHAL_HMAC. */
  function Mode(f: Flags): (mode: byte)
    ensures IsMode(mode)
  {
    if Has(f.tkt, TKTFLAG_OATH_HOTP) then
      if Has(f.cfg, CFGFLAG_CHAL_HMAC) then MODE_CHAL_HMAC
      else if Has(f.cfg, CFGFLAG_CHAL_YUBICO) then MODE_CHAL_YUBICO
      else MODE_OATH_HOTP
    else if Has(f.cfg, CFGFLAG_STATIC_TICKET) then MODE_STATIC_TICKET
    else MODE_OTP_YUBICO
  }

  // ---------- names ----------

  datatype Name =
    | TabFirst | TabBetween | TabLast | AppendDelay1 | AppendDelay2 | AppendCR | ProtectSecond
    | HmacLt64 | ButtonReqd | SendRef | Pacing10ms | Pacing20ms | StaticTicket | ShortTicket
    | StrongPw1 | StrongPw2 | ManUpdate
    | SerialBtnVisible | SerialUsbVisible | SerialApiVisible | UseNumericKeypad | FastTrig | AllowUpdate | DormantSlot
    | LedInverted
    | OathDigits | RandomSeed | FixedSeedvalue

  /** The spelling of a name, as the tables and the options of OATH give it. */
  function JsonText(n: Name): string {
    match Where(n).0
    case Some(TicketFlags) => TicketText(n)
    case Some(ConfigFlags) => ConfigText(n)
    case Some(ExtendedFlags) => ExtendedText(n)
    case None => OathText(n)
  }

  function TicketText(n: Name): string {
    match n
    case TabFirst => "tabFirst"
    case TabBetween => "tabBetween"
    case TabLast => "tabLast"
    case AppendDelay1 => "appendDelay1"
    case AppendDelay2 => "appendDelay2"
    case AppendCR => "appendCR"
    case _ => "protectSecond"
  }

  function ConfigText(n: Name): string {
    match n
    case HmacLt64 => "hmacLt64"
    case ButtonReqd => "buttonReqd"
    case SendRef => "sendRef"
    case Pacing10ms => "pacing10ms"
    case Pacing20ms => "pacing20ms"
    case StaticTicket => "staticTicket"
    case ShortTicket => "shortTicket"
    case StrongPw1 => "strongPw1"
    case StrongPw2 => "strongPw2"
    case _ => "manUpdate"
  }

  function ExtendedText(n: Name): string {
    match n
    case SerialBtnVisible => "serialBtnVisible"
    case SerialUsbVisible => "serialUsbVisible"
    case SerialApiVisible => "serialApiVisible"
    case UseNumericKeypad => "useNumericKeypad"
    case FastTrig => "fastTrig"
    case AllowUpdate => "allowUpdate"
    case DormantSlot => "dormant"
    case _ => "ledInverted"
  }

  function OathText(n: Name): string {
    match n
    case OathDigits => "oathDigits"
    case RandomSeed => "randomSeed"
    case _ => "fixedSeedvalue"
  }

  /** The name that a text spells, told from its length, first, seventh and last character. */
  function Spelled(t: string): Name
    requires |t| >= 7
  {
    match |t|
    case 7 => if t[0] == 't' then TabLast else if t[0] == 's' then SendRef else DormantSlot
    case 8 =>
      if t[0] == 't' then TabFirst else if t[0] == 'a' then AppendCR else if t[0] == 'h' then HmacLt64 else FastTrig
    case 9 => if t[8] == '1' then StrongPw1 else if t[8] == '2' then StrongPw2 else ManUpdate
    case 10 =>
      if t[0] == 't' then TabBetween else if t[0] == 'b' then ButtonReqd
      else if t[0] == 'o' then OathDigits else if t[0] == 'r' then RandomSeed
      else if t[6] == '1' then Pacing10ms else Pacing20ms
    case 11 => if t[0] == 's' then ShortTicket else if t[0] == 'a' then AllowUpdate else LedInverted
    case 12 => if t[0] == 's' then StaticTicket else if t[11] == '1' then AppendDelay1 else AppendDelay2
    case 13 => ProtectSecond
    case 14 => FixedSeedvalue
    case _ =>
      if t[0] == 'u' then UseNumericKeypad else if t[6] == 'B' then SerialBtnVisible
      else if t[6] == 'U' then SerialUsbVisible else SerialApiVisible
  }

  lemma TextSpells(n: Name)
    ensures |JsonText(n)| >= 7 && Spelled(JsonText(n)) == n
  {
    hide Spelled, TicketText, ConfigText, ExtendedText, OathText;
    TicketTextSpells(n);
    ConfigTextSpells(n);
    ExtendedTextSpells(n);
    OathTextSpells(n);
  }

  lemma TicketTextSpells(n: Name)
    ensures Where(n).0 == Some(TicketFlags) ==> |TicketText(n)| >= 7 && Spelled(TicketText(n)) == n
  {
  }

  lemma ConfigTextSpells(n: Name)
    ensures Where(n).0 == Some(ConfigFlags) ==> |ConfigText(n)| >= 7 && Spelled(ConfigText(n)) == n
  {
  }

  lemma ExtendedTextSpells(n: Name)
    ensures Where(n).0 == Some(ExtendedFlags) ==> |ExtendedText(n)| >= 7 && Spelled(ExtendedText(n)) == n
  {
  }

  lemma OathTextSpells(n: Name)
    ensures Where(n).0.None? ==> |OathText(n)| >= 7 && Spelled(OathText(n)) == n
  {
  }

  /** No two names share a text, so a map from names is a map from texts. */
  lemma TextsDiffer(m: Name, n: Name)
    ensures JsonText(m) == JsonText(n) <==> m == n
  {
    hide JsonText, Spelled;
    TextSpells(m);
    TextSpells(n);
  }

  // ---------- tables ----------

  datatype Table = TicketFlags | ConfigFlags | ExtendedFlags

  /** A row of struct map_st; the setter sets the flag when the firmware has the capability. */
  datatype Entry = Entry(flag: byte, name: Option<Name>, capability: Capability, mode: byte)

  function TicketRow(i: nat): Entry {
    match i
    case 0 => Entry(TKTFLAG_TAB_FIRST, Some(TabFirst), TicketMods, MODE_OUTPUT)
    case 1 => Entry(TKTFLAG_APPEND_TAB1, Some(TabBetween), TicketMods, MODE_OUTPUT)
    case 2 => Entry(TKTFLAG_APPEND_TAB2, Some(TabLast), TicketMods, MODE_OUTPUT)
    case 3 => Entry(TKTFLAG_APPEND_DELAY1, Some(AppendDelay1), TicketMods, MODE_OUTPUT)
    case 4 => Entry(TKTFLAG_APPEND_DELAY2, Some(AppendDelay2), TicketMods, MODE_OUTPUT)
    case 5 => Entry(TKTFLAG_APPEND_CR, Some(AppendCR), TicketMods, MODE_OUTPUT)
    case 6 => Entry(TKTFLAG_PROTECT_CFG2, Some(ProtectSecond), SlotTwo, MODE_ALL)
    case 7 => Entry(TKTFLAG_OATH_HOTP, None, Oath, MODE_OATH_HOTP)
    case _ => Entry(TKTFLAG_CHAL_RESP, None, ChalResp, MODE_CHAL_RESP)
  }

  function ConfigRow(i: nat): Entry {
    match i
    case 0 => Entry(CFGFLAG_CHAL_YUBICO, None, ChalResp, MODE_CHAL_YUBICO)
    case 1 => Entry(CFGFLAG_CHAL_HMAC, None, ChalResp, MODE_CHAL_HMAC)
    case 2 => Entry(CFGFLAG_HMAC_LT64, Some(HmacLt64), ChalResp, MODE_CHAL_HMAC)
    case 3 => Entry(CFGFLAG_CHAL_BTN_TRIG, Some(ButtonReqd), ChalResp, MODE_CHAL_RESP)
    case 4 => Entry(CFGFLAG_OATH_HOTP8, None, Oath, MODE_OATH_HOTP)
    case 5 => Entry(CFGFLAG_OATH_FIXED_MODHEX1, None, Oath, MODE_OATH_HOTP)
    case 6 => Entry(CFGFLAG_OATH_FIXED_MODHEX2, None, Oath, MODE_OATH_HOTP)
    case 7 => Entry(CFGFLAG_OATH_FIXED_MODHEX, None, Oath, MODE_OATH_HOTP)
    case 8 => Entry(CFGFLAG_SEND_REF, Some(SendRef), TicketMods, MODE_OUTPUT)
    case 9 => Entry(CFGFLAG_TICKET_FIRST, None, TicketFirst, MODE_OUTPUT)
    case 10 => Entry(CFGFLAG_PACING_10MS, Some(Pacing10ms), TicketMods, MODE_OUTPUT)
    case 11 => Entry(CFGFLAG_PACING_20MS, Some(Pacing20ms), TicketMods, MODE_OUTPUT)
    case 12 => Entry(CFGFLAG_ALLOW_HIDTRIG, None, HidTrig, MODE_OUTPUT)
    case 13 => Entry(CFGFLAG_STATIC_TICKET, Some(StaticTicket), Static, MODE_STATIC_TICKET)
    case 14 => Entry(CFGFLAG_SHORT_TICKET, Some(ShortTicket), StaticExtras, MODE_OUTPUT)
    case 15 => Entry(CFGFLAG_STRONG_PW1, Some(StrongPw1), StaticExtras, MODE_STATIC_TICKET)
    case 16 => Entry(CFGFLAG_STRONG_PW2, Some(StrongPw2), StaticExtras, MODE_STATIC_TICKET)
    case _ => Entry(CFGFLAG_MAN_UPDATE, Some(ManUpdate), StaticExtras, MODE_STATIC_TICKET)
  }

  function ExtendedRow(i: nat): Entry {
    match i
    case 0 => Entry(EXTFLAG_SERIAL_BTN_VISIBLE, Some(SerialBtnVisible), Serial, MODE_ALL)
    case 1 => Entry(EXTFLAG_SERIAL_USB_VISIBLE, Some(SerialUsbVisible), Serial, MODE_ALL)
    case 2 => Entry(EXTFLAG_SERIAL_API_VISIBLE, Some(SerialApiVisible), SerialApi, MODE_ALL)
    case 3 => Entry(EXTFLAG_USE_NUMERIC_KEYPAD, Some(UseNumericKeypad), Numeric, MODE_ALL)
    case 4 => Entry(EXTFLAG_FAST_TRIG, Some(FastTrig), Fast, MODE_ALL)
    case 5 => Entry(EXTFLAG_ALLOW_UPDATE, Some(AllowUpdate), Update, MODE_ALL)
    case 6 => Entry(EXTFLAG_DORMANT, Some(DormantSlot), Dormant, MODE_ALL)
    case _ => Entry(EXTFLAG_LED_INV, Some(LedInverted), LedInv, MODE_ALL)
  }

  function Size(t: Table): nat {
    match t
    case TicketFlags => 9
    case ConfigFlags => 18
    case ExtendedFlags => 8
  }

  function Row(t: Table, i: nat): Entry
    requires i < Size(t)
  {
    match t
    case TicketFlags => TicketRow(i)
    case ConfigFlags => ConfigRow(i)
    case ExtendedFlags => ExtendedRow(i)
  }

  /** Where a name stands: its table, if it is in one, and its row. */
  function Where(n: Name): (Option<Table>, nat) {
    match n
    case TabFirst => (Some(TicketFlags), 0)
    case TabBetween => (Some(TicketFlags), 1)
    case TabLast => (Some(TicketFlags), 2)
    case AppendDelay1 => (Some(TicketFlags), 3)
    case AppendDelay2 => (Some(TicketFlags), 4)
    case AppendCR => (Some(TicketFlags), 5)
    case ProtectSecond => (Some(TicketFlags), 6)
    case HmacLt64 => (Some(ConfigFlags), 2)
    case ButtonReqd => (Some(ConfigFlags), 3)
    case SendRef => (Some(ConfigFlags), 8)
    case Pacing10ms => (Some(ConfigFlags), 10)
    case Pacing20ms => (Some(ConfigFlags), 11)
    case StaticTicket => (Some(ConfigFlags), 13)
    case ShortTicket => (Some(ConfigFlags), 14)
    case StrongPw1 => (Some(ConfigFlags), 15)
    case StrongPw2 => (Some(ConfigFlags), 16)
    case ManUpdate => (Some(ConfigFlags), 17)
    case SerialBtnVisible => (Some(ExtendedFlags), 0)
    case SerialUsbVisible => (Some(ExtendedFlags), 1)
    case SerialApiVisible => (Some(ExtendedFlags), 2)
    case UseNumericKeypad => (Some(ExtendedFlags), 3)
    case FastTrig => (Some(ExtendedFlags), 4)
    case AllowUpdate => (Some(ExtendedFlags), 5)
    case DormantSlot => (Some(ExtendedFlags), 6)
    case LedInverted => (Some(ExtendedFlags), 7)
    case OathDigits => (None, 0)
    case RandomSeed => (None, 1)
    case FixedSeedvalue => (None, 2)
  }

  predicate SingleBit(b: byte) {
    b == 0x01 || b == 0x02 || b == 0x04 || b == 0x08 || b == 0x10 || b == 0x20 || b == 0x40 || b == 0x80
  }

  /** Every name stands in one row of one table, and a named flag is a single bit. */
  lemma NamesAreUnique(t: Table, i: nat)
    requires i < Size(t) && Row(t, i).name.Some?
    ensures Where(Row(t, i).name.value) == (Some(t), i) && SingleBit(Row(t, i).flag)
  {
    hide TicketRow, ConfigRow, ExtendedRow, Where, SingleBit;
    match t
    case TicketFlags => TicketNames(i);
    case ConfigFlags => ConfigNames(i);
    case ExtendedFlags => ExtendedNames(i);
  }

  lemma TicketNames(i: nat)
    requires i < 9 && TicketRow(i).name.Some?
    ensures Where(TicketRow(i).name.value) == (Some(TicketFlags), i) && SingleBit(TicketRow(i).flag)
  {
  }

  lemma ConfigNames(i: nat)
    requires i < 18 && ConfigRow(i).name.Some?
    ensures Where(ConfigRow(i).name.value) == (Some(ConfigFlags), i) && SingleBit(ConfigRow(i).flag)
  {
  }

  lemma ExtendedNames(i: nat)
    requires i < 8 && ExtendedRow(i).name.Some?
    ensures Where(ExtendedRow(i).name.value) == (Some(ExtendedFlags), i) && SingleBit(ExtendedRow(i).flag)
  {
  }

  // ---------- what goes into the options ----------

  datatype Json = JBool(b: bool) | JInt(n: int)

  type Options = map<Name, Json>

  predicate Applies(e: Entry, mode: byte) { e.mode != 0 && mode & e.mode == mode }

  function Union(a: byte, b: byte): byte { a | b }

  function Masked(flags: byte, mask: byte): byte { flags & mask }

  /** The options after the first i rows of a table have been exported. */
  function Recorded(t: Table, mode: byte, flags: byte, i: nat, m: Options): Options
    requires i <= Size(t)
  {
    if i == 0 then m
    else
      var e, r := Row(t, i - 1), Recorded(t, mode, flags, i - 1, m);
      if e.name.Some? && Applies(e, mode) then r[e.name.value := JBool(Has(flags, e.flag))] else r
  }

  /** The flags that the first i rows of a table set from the options. */
  function Chosen(t: Table, mode: byte, v: Firmware, m: Options, i: nat): byte
    requires i <= Size(t)
  {
    if i == 0 then 0
    else Union(Chosen(t, mode, v, m, i - 1), if Sets(Row(t, i - 1), mode, v, m) then Row(t, i - 1).flag else 0)
  }

  predicate Sets(e: Entry, mode: byte, v: Firmware, m: Options) {
    e.name.Some? && Applies(e, mode) && e.name.value in m && m[e.name.value] == JBool(true) && Capable(v, e.capability)
  }

  /** The flags of the first i rows that have a name, belong to the mode and are within the firmware's capabilities. */
  function Mask(t: Table, mode: byte, v: Firmware, i: nat): byte
    requires i <= Size(t)
  {
    if i == 0 then 0 else Union(Mask(t, mode, v, i - 1), Part(Row(t, i - 1), mode, v))
  }

  function Part(e: Entry, mode: byte, v: Firmware): byte { if Restores(e, mode, v) then e.flag else 0 }

  predicate Restores(e: Entry, mode: byte, v: Firmware) { e.name.Some? && Applies(e, mode) && Capable(v, e.capability) }

  /** The export of one table touches only its own names, and records the flag of each row that applies. */
  lemma {:induction false} RecordedIs(t: Table, mode: byte, flags: byte, i: nat, m: Options)
    requires i <= Size(t)
    ensures
      var r := Recorded(t, mode, flags, i, m);
      Kept(t, m, r) && Records(t, mode, flags, i, r)
  {
    hide Has, Row, Where, Size, Kept, Records, Applies;
    if i == 0 {
      NothingRecorded(t, mode, flags, m);
    } else {
      RecordedIs(t, mode, flags, i - 1, m);
      KeptByRow(t, mode, flags, i - 1, m, Recorded(t, mode, flags, i - 1, m));
      RecordsRow(t, mode, flags, i - 1, Recorded(t, mode, flags, i - 1, m));
    }
  }

  lemma NothingRecorded(t: Table, mode: byte, flags: byte, m: Options)
    ensures Kept(t, m, m) && Records(t, mode, flags, 0, m)
  {
  }

  lemma KeptByRow(t: Table, mode: byte, flags: byte, i: nat, m: Options, r: Options)
    requires i < Size(t) && Kept(t, m, r)
    ensures
      var e := Row(t, i);
      Kept(t, m, if e.name.Some? && Applies(e, mode) then r[e.name.value := JBool(Has(flags, e.flag))] else r)
  {
    hide Has, Row, Where, Size, Applies;
    if Row(t, i).name.Some? {
      NamesAreUnique(t, i);
    }
  }

  lemma RecordsRow(t: Table, mode: byte, flags: byte, i: nat, r: Options)
    requires i < Size(t) && Records(t, mode, flags, i, r)
    ensures
      var e := Row(t, i);
      Records(t, mode, flags, i + 1,
              if e.name.Some? && Applies(e, mode) then r[e.name.value := JBool(Has(flags, e.flag))] else r)
  {
    hide Has, Row, Where, Size, Applies;
    forall j | 0 <= j <= i && Row(t, j).name.Some?
      ensures Where(Row(t, j).name.value) == (Some(t), j)
    {
      NamesAreUnique(t, j);
    }
  }

  /** Names of other tables are untouched. */
  predicate Kept(t: Table, m: Options, m': Options) {
    && (forall n :: n in m && Where(n).0 != Some(t) ==> n in m' && m'[n] == m[n])
    && (forall n :: n in m' && Where(n).0 != Some(t) ==> n in m)
  }

  /** The options hold the flags of the rows that apply. */
  predicate Records(t: Table, mode: byte, flags: byte, i: nat, m: Options)
    requires i <= Size(t)
  {
    forall j :: 0 <= j < i && Row(t, j).name.Some? && Applies(Row(t, j), mode) ==>
      Row(t, j).name.value in m && m[Row(t, j).name.value] == JBool(Has(flags, Row(t, j).flag))
  }

  lemma MaskStep(flags: byte, flag: byte, mask: byte)
    requires SingleBit(flag)
    ensures Union(Masked(flags, mask), if Has(flags, flag) then flag else 0) == Masked(flags, Union(mask, flag))
  {
    Distributes(flags, mask, flag);
    BitOrNothing(flags, flag);
    hide Union, Masked, SingleBit;
  }

  lemma Distributes(flags: byte, mask: byte, flag: byte)
    ensures Masked(flags, Union(mask, flag)) == Union(Masked(flags, mask), Masked(flags, flag))
  {
  }

  lemma BitOrNothing(flags: byte, flag: byte)
    requires SingleBit(flag)
    ensures Masked(flags, flag) == if Has(flags, flag) then flag else 0
  {
  }

  lemma MaskNothing(flags: byte, mask: byte)
    ensures Masked(flags, 0) == 0 && Union(mask, 0) == mask && Union(Masked(flags, mask), 0) == Masked(flags, mask)
  {
  }

  /** Importing what was exported sets the exported flags that the firmware can have. */
  lemma {:induction false} ChosenIsMasked(t: Table, mode: byte, v: Firmware, flags: byte, m: Options, i: nat)
    requires i <= Size(t) && Records(t, mode, flags, i, m)
    ensures Chosen(t, mode, v, m, i) == Masked(flags, Mask(t, mode, v, i))
  {
    hide Applies, Has, Row, Where, SingleBit, Capable, Union, Masked, Size;
    MaskNothing(flags, 0);
    if i > 0 {
      MaskNothing(flags, Mask(t, mode, v, i - 1));
      ChosenIsMasked(t, mode, v, flags, m, i - 1);
      var e := Row(t, i - 1);
      if e.name.Some? {
        NamesAreUnique(t, i - 1);
        MaskStep(flags, e.flag, Mask(t, mode, v, i - 1));
      }
    }
  }

  // ---------- the masks ----------

  function TicketMask(mode: byte, v: Firmware): byte {
    Union(if Applies(Row(TicketFlags, 0), mode) then 0x3f else 0, if Capable(v, SlotTwo) then 0x80 else 0)
  }

  function ConfigMask(mode: byte, v: Firmware): byte {
    if mode == MODE_CHAL_HMAC then if Capable(v, ChalResp) then 0x0c else 0
    else if mode == MODE_CHAL_YUBICO then if Capable(v, ChalResp) then 0x08 else 0
    else if mode == MODE_STATIC_TICKET then
      Union(Union(0x0d, if Capable(v, Static) then 0x20 else 0), if Capable(v, StaticExtras) then 0xd2 else 0)
    else Union(0x0d, if Capable(v, StaticExtras) then 0x02 else 0)
  }

  function ExtendedMask(v: Firmware): byte {
    Union(Union(Union(if Capable(v, Serial) then 0x03 else 0, if Capable(v, SerialApi) then 0x04 else 0),
                if Capable(v, Numeric) then 0x78 else 0),
          if Capable(v, LedInv) then 0x80 else 0)
  }

  lemma TicketMaskIs(mode: byte, v: Firmware)
    requires IsMode(mode)
    ensures Mask(TicketFlags, mode, v, Size(TicketFlags)) == TicketMask(mode, v)
  {
    assert Size(TicketFlags) == 9;
    var out: byte := if Applies(Row(TicketFlags, 0), mode) then 0xff else 0;
    assert Mask(TicketFlags, mode, v, 0) == 0;
    assert Mask(TicketFlags, mode, v, 1) == 0x01 & out;
    assert Mask(TicketFlags, mode, v, 2) == 0x03 & out;
    assert Mask(TicketFlags, mode, v, 3) == 0x07 & out;
    assert Mask(TicketFlags, mode, v, 4) == 0x0f & out;
    assert Mask(TicketFlags, mode, v, 5) == 0x1f & out;
    assert Mask(TicketFlags, mode, v, 6) == 0x3f & out;
    assert Mask(TicketFlags, mode, v, 7) == TicketMask(mode, v);
    assert Mask(TicketFlags, mode, v, 8) == TicketMask(mode, v);
  }

  predicate IsOutput(mode: byte) { mode == MODE_OTP_YUBICO || mode == MODE_OATH_HOTP || mode == MODE_STATIC_TICKET }

  lemma UnnamedRows(mode: byte, v: Firmware, i: nat)
    requires i in {0, 1, 4, 5, 6, 7, 9, 12}
    ensures Part(Row(ConfigFlags, i), mode, v) == 0
  {
    hide Applies, Capable;
  }

  lemma ChallengeRows(mode: byte, v: Firmware)
    requires IsMode(mode)
    ensures Part(Row(ConfigFlags, 2), mode, v) == if mode == MODE_CHAL_HMAC && Capable(v, ChalResp) then 0x04 else 0
    ensures Part(Row(ConfigFlags, 3), mode, v)
      == if (mode == MODE_CHAL_HMAC || mode == MODE_CHAL_YUBICO) && Capable(v, ChalResp) then 0x08 else 0
  {
    hide Capable;
  }

  lemma OutputRows(mode: byte, v: Firmware)
    requires IsMode(mode)
    ensures Part(Row(ConfigFlags, 8), mode, v) == if IsOutput(mode) then 0x01 else 0
    ensures Part(Row(ConfigFlags, 10), mode, v) == if IsOutput(mode) then 0x04 else 0
    ensures Part(Row(ConfigFlags, 11), mode, v) == if IsOutput(mode) then 0x08 else 0
    ensures Part(Row(ConfigFlags, 14), mode, v) == if IsOutput(mode) && Capable(v, StaticExtras) then 0x02 else 0
  {
    assert Capable(v, TicketMods);
    hide Capable;
  }

  lemma StaticRows(mode: byte, v: Firmware)
    requires IsMode(mode)
    ensures Part(Row(ConfigFlags, 13), mode, v) == if mode == MODE_STATIC_TICKET && Capable(v, Static) then 0x20 else 0
    ensures Part(Row(ConfigFlags, 15), mode, v)
        == if mode == MODE_STATIC_TICKET && Capable(v, StaticExtras) then 0x10 else 0
    ensures Part(Row(ConfigFlags, 16), mode, v)
        == if mode == MODE_STATIC_TICKET && Capable(v, StaticExtras) then 0x40 else 0
    ensures Part(Row(ConfigFlags, 17), mode, v)
        == if mode == MODE_STATIC_TICKET && Capable(v, StaticExtras) then 0x80 else 0
  {
    hide Capable;
  }

  lemma AddPart(t: Table, mode: byte, v: Firmware, i: nat)
    requires i < Size(t)
    ensures Mask(t, mode, v, i + 1) == Union(Mask(t, mode, v, i), Part(Row(t, i), mode, v))
    ensures Part(Row(t, i), mode, v) == 0 ==> Mask(t, mode, v, i + 1) == Mask(t, mode, v, i)
    ensures Mask(t, mode, v, 0) == 0
  {
    MaskNothing(0, Mask(t, mode, v, i));
    hide Union, Part;
  }

  /** The rows that can matter are 2, 3, 8, 10, 11 and 13 to 17. */
  lemma ConfigSum(t: Table, mode: byte, v: Firmware)
    requires t == ConfigFlags
    requires forall i :: i in {0, 1, 4, 5, 6, 7, 9, 12} ==> Part(Row(t, i), mode, v) == 0
    ensures Mask(t, mode, v, 18) ==
      Union(Union(Union(Union(Union(Union(Union(Union(Union(Union(0,
        Part(Row(t, 2), mode, v)), Part(Row(t, 3), mode, v)), Part(Row(t, 8), mode, v)), Part(Row(t, 10), mode, v)),
        Part(Row(t, 11), mode, v)), Part(Row(t, 13), mode, v)), Part(Row(t, 14), mode, v)), Part(Row(t, 15), mode, v)),
        Part(Row(t, 16), mode, v)), Part(Row(t, 17), mode, v))
  {
    hide Union, Part, Mask, Row;
    AddPart(t, mode, v, 0);
    AddPart(t, mode, v, 1);
    AddPart(t, mode, v, 2);
    AddPart(t, mode, v, 3);
    AddPart(t, mode, v, 4);
    AddPart(t, mode, v, 5);
    AddPart(t, mode, v, 6);
    AddPart(t, mode, v, 7);
    AddPart(t, mode, v, 8);
    AddPart(t, mode, v, 9);
    AddPart(t, mode, v, 10);
    AddPart(t, mode, v, 11);
    AddPart(t, mode, v, 12);
    AddPart(t, mode, v, 13);
    AddPart(t, mode, v, 14);
    AddPart(t, mode, v, 15);
    AddPart(t, mode, v, 16);
    AddPart(t, mode, v, 17);
  }

  lemma ConfigMaskIs(mode: byte, v: Firmware)
    requires IsMode(mode)
    ensures Mask(ConfigFlags, mode, v, Size(ConfigFlags)) == ConfigMask(mode, v)
  {
    forall i | i in {0, 1, 4, 5, 6, 7, 9, 12}
      ensures Part(Row(ConfigFlags, i), mode, v) == 0
    {
      UnnamedRows(mode, v, i);
    }
    ChallengeRows(mode, v);
    OutputRows(mode, v);
    StaticRows(mode, v);
    hide Part, Mask, Capable, Row;
    ConfigSum(ConfigFlags, mode, v);
  }

  lemma ExtendedMaskIs(mode: byte, v: Firmware)
    ensures Mask(ExtendedFlags, mode, v, Size(ExtendedFlags)) == ExtendedMask(v)
  {
    assert Size(ExtendedFlags) == 8;
    SerialRows(mode, v);
    UpdateRows(mode, v);
    hide Part, Mask, Capable, Row;
    ExtendedSum(ExtendedFlags, mode, v);
  }

  lemma SerialRows(mode: byte, v: Firmware)
    ensures Part(Row(ExtendedFlags, 0), mode, v) == if Capable(v, Serial) then 0x01 else 0
    ensures Part(Row(ExtendedFlags, 1), mode, v) == if Capable(v, Serial) then 0x02 else 0
    ensures Part(Row(ExtendedFlags, 2), mode, v) == if Capable(v, SerialApi) then 0x04 else 0
    ensures Part(Row(ExtendedFlags, 7), mode, v) == if Capable(v, LedInv) then 0x80 else 0
  {
    hide Capable, Part;
    ExtendedPart(mode, v, 0);
    ExtendedPart(mode, v, 1);
    ExtendedPart(mode, v, 2);
    ExtendedPart(mode, v, 7);
  }

  lemma UpdateRows(mode: byte, v: Firmware)
    ensures Part(Row(ExtendedFlags, 3), mode, v) == if Capable(v, Numeric) then 0x08 else 0
    ensures Part(Row(ExtendedFlags, 4), mode, v) == if Capable(v, Numeric) then 0x10 else 0
    ensures Part(Row(ExtendedFlags, 5), mode, v) == if Capable(v, Numeric) then 0x20 else 0
    ensures Part(Row(ExtendedFlags, 6), mode, v) == if Capable(v, Numeric) then 0x40 else 0
  {
    SameCapabilities(v);
    hide Capable, Part;
    ExtendedPart(mode, v, 3);
    ExtendedPart(mode, v, 4);
    ExtendedPart(mode, v, 5);
    ExtendedPart(mode, v, 6);
  }

  lemma SameCapabilities(v: Firmware)
    ensures Capable(v, Numeric) == Capable(v, Fast) == Capable(v, Update) == Capable(v, Dormant)
  {
  }

  /** Rows of the extended flags belong to every mode. */
  lemma ExtendedPart(mode: byte, v: Firmware, i: nat)
    requires i < 8
    ensures Part(Row(ExtendedFlags, i), mode, v)
      == if Capable(v, ExtendedRow(i).capability) then ExtendedRow(i).flag else 0
  {
    AllModes(mode);
    hide Capable;
  }

  lemma AllModes(mode: byte)
    ensures mode & MODE_ALL == mode
  {
  }

  lemma ExtendedSum(t: Table, mode: byte, v: Firmware)
    requires t == ExtendedFlags
    ensures Mask(t, mode, v, 8) ==
      Union(Union(Union(Union(Union(Union(Union(Union(0,
        Part(Row(t, 0), mode, v)), Part(Row(t, 1), mode, v)), Part(Row(t, 2), mode, v)), Part(Row(t, 3), mode, v)),
        Part(Row(t, 4), mode, v)), Part(Row(t, 5), mode, v)), Part(Row(t, 6), mode, v)), Part(Row(t, 7), mode, v))
  {
    hide Union, Part, Mask, Row;
    AddPart(t, mode, v, 0);
    AddPart(t, mode, v, 1);
    AddPart(t, mode, v, 2);
    AddPart(t, mode, v, 3);
    AddPart(t, mode, v, 4);
    AddPart(t, mode, v, 5);
    AddPart(t, mode, v, 6);
    AddPart(t, mode, v, 7);
  }

  // ---------- export ----------

  /** The object "yubiProdConfig"; a member that is missing is None. */
  datatype Document =
    Document(mode: Option<string>, target: Option<int>, protection: Option<string>, options: Option<Options>)

  function ModeText(mode: byte): string {
    if mode == MODE_OATH_HOTP then "oathHOTP"
    else if mode == MODE_CHAL_HMAC then "hmacCR"
    else if mode == MODE_STATIC_TICKET then "staticTicket"
    else if mode == MODE_CHAL_YUBICO then "yubicoCR"
    else "yubicoOTP"
  }

  /** The first mode with this text; any other text means Yubico OTP. */
  function ModeOf(text: string): (mode: byte)
    ensures IsMode(mode)
  {
    if text == "oathHOTP" then MODE_OATH_HOTP
    else if text == "hmacCR" then MODE_CHAL_HMAC
    else if text == "staticTicket" then MODE_STATIC_TICKET
    else if text == "yubicoCR" then MODE_CHAL_YUBICO
    else MODE_OTP_YUBICO
  }

  lemma ModeTextRoundTrip(mode: byte)
    requires IsMode(mode)
    ensures ModeOf(ModeText(mode)) == mode
  {
    assert "yubicoCR"[0] != "oathHOTP"[0];
    assert |"hmacCR"| == 6 && |"staticTicket"| == 12 && |"yubicoOTP"| == 9 && |"oathHOTP"| == 8 && |"yubicoCR"| == 8;
  }

  /** A moving factor that the export can write down: 0 or 16. */
  predicate FixedSeed(uid: seq<byte>)
    requires |uid| == 6
  {
    (uid[5] == 0x01 || uid[5] == 0x00) && uid[4] == 0x00
  }

  function OathOptions(cfgFlags: byte, uid: seq<byte>): Options
    requires |uid| == 6
  {
    var m: Options := map[OathDigits := JInt(if Has(cfgFlags, CFGFLAG_OATH_HOTP8) then 8 else 6)];
    if FixedSeed(uid) then m[FixedSeedvalue := JInt(if uid[5] == 0x01 then 16 else 0)][RandomSeed := JBool(false)]
    else m[RandomSeed := JBool(true)]
  }

  function ExportOptions(f: Flags, uid: seq<byte>): Options
    requires |uid| == 6
  {
    var mode := Mode(f);
    var m0 := if mode == MODE_OATH_HOTP then OathOptions(f.cfg, uid) else map[];
    var m1 := Recorded(TicketFlags, mode, f.tkt, Size(TicketFlags), m0);
    var m2 := Recorded(ConfigFlags, mode, f.cfg, Size(ConfigFlags), m1);
    Recorded(ExtendedFlags, mode, f.ext, Size(ExtendedFlags), m2)
  }

  function Target(command: nat): Option<int> {
    if command == SLOT_CONFIG then Some(1) else if command == SLOT_CONFIG2 then Some(2) else None
  }

  function Protection(accCodeType: nat): Option<string> {
    if accCodeType == 1 then Some("none") else if accCodeType == 2 then Some("random")
    else if accCodeType == 3 then Some("id") else None
  }

  function ExportDocument(command: nat, accCodeType: nat, f: Flags, uid: seq<byte>): Document
    requires |uid| == 6
  {
    Document(Some(ModeText(Mode(f))), Target(command), Protection(accCodeType), Some(ExportOptions(f, uid)))
  }

  // ---------- import ----------

  datatype ImportError = EInval | ENoRandom

  datatype Imported = Imported(error: Option<ImportError>, flags: Flags, uid: seq<byte>, command: nat)

  function AsInt(j: Json): int { if j.JInt? then j.n else if j.b then 1 else 0 }

  function AsBool(j: Json): bool { if j.JBool? then j.b else j.n != 0 }

  /** A flag setter called with true. */
  function SetFlag(v: Firmware, flags: byte, flag: byte, c: Capability): byte {
    if Capable(v, c) then Union(flags, flag) else flags
  }

  /** ykp_set_oath_imf: the moving factor divided by 16, big-endian in the last two octets of the uid. */
  function SetImf(v: Firmware, uid: seq<byte>, imf: int): (r: seq<byte>)
    requires |uid| == 6
    ensures |r| == 6
  {
    if !Capable(v, OathImf) || imf < 0 || imf > 65535 * 16 || imf % 16 != 0 then uid
    else uid[4 := ToByte(imf / 16 / 256)][5 := ToByte(imf / 16)]
  }

  /** ykp_get_oath_imf. */
  function GetImf(v: Firmware, uid: seq<byte>): nat
    requires |uid| == 6
  {
    if !Capable(v, OathImf) then 0 else (FromByte(uid[4]) * 256 + FromByte(uid[5])) * 16
  }

  /** A moving factor that the setter accepts is read back; any other leaves the uid as it is. */
  lemma ImfRoundTrip(v: Firmware, uid: seq<byte>, imf: int)
    requires |uid| == 6
    ensures
      if Capable(v, OathImf) && 0 <= imf <= 65535 * 16 && imf % 16 == 0 then
        GetImf(v, SetImf(v, uid, imf)) == imf && SetImf(v, uid, imf)[..4] == uid[..4]
      else SetImf(v, uid, imf) == uid
  {
    hide Capable, ToByte, FromByte;
    if Capable(v, OathImf) && 0 <= imf <= 65535 * 16 && imf % 16 == 0 {
      var h := imf / 16;
      ByteOfNat(h / 256);
      ByteOfNat(h);
      var r := SetImf(v, uid, imf);
      assert FromByte(r[4]) * 256 + FromByte(r[5]) == h;
    }
  }

  lemma ByteOfNat(n: nat)
    ensures FromByte(ToByte(n)) == n % 256
  {
    ToByteMod(n);
    ToByteBits(n % 256);
    assert Pow2(8) == 256;
    BitsNatRoundTrip(n % 256, 8);
  }

  /** The command after the target of the document, or nothing when they do not fit. */
  function TargetCommand(v: Firmware, command: nat, target: Option<int>): Option<nat> {
    if target.None? then Some(command)
    else if target.value != 1 && target.value != 2 then None
    else
      var c := if target.value == 1 then SLOT_CONFIG else SLOT_CONFIG2;
      if command == 0 then Some(if CommandAllowed(v, c) then c else 0)
      else if command != c then None
      else Some(command)
  }

  /** The flags that the mode itself sets. */
  function SetMode(v: Firmware, f: Flags, mode: byte, m: Options): Flags {
    if mode == MODE_OATH_HOTP then
      var g := f.(tkt := SetFlag(v, f.tkt, TKTFLAG_OATH_HOTP, Oath));
      if OathDigits in m && AsInt(m[OathDigits]) == 8 then g.(cfg := SetFlag(v, g.cfg, CFGFLAG_OATH_HOTP8, Oath)) else g
    else if mode == MODE_CHAL_HMAC then
      f.(tkt := SetFlag(v, f.tkt, TKTFLAG_CHAL_RESP, ChalResp), cfg := SetFlag(v, f.cfg, CFGFLAG_CHAL_HMAC, ChalResp))
    else if mode == MODE_CHAL_YUBICO then
      f.(tkt := SetFlag(v, f.tkt, TKTFLAG_CHAL_RESP, ChalResp), cfg := SetFlag(v, f.cfg, CFGFLAG_CHAL_YUBICO, ChalResp))
    else if mode == MODE_STATIC_TICKET then f.(cfg := SetFlag(v, f.cfg, CFGFLAG_STATIC_TICKET, Static))
    else f
  }

  function SetOptions(v: Firmware, f: Flags, mode: byte, m: Options): Flags {
    Flags(Union(f.tkt, Chosen(TicketFlags, mode, v, m, Size(TicketFlags))),
          Union(f.cfg, Chosen(ConfigFlags, mode, v, m, Size(ConfigFlags))),
          Union(f.ext, Chosen(ExtendedFlags, mode, v, m, Size(ExtendedFlags))))
  }

  function ImportDocument(v: Firmware, command: nat, f: Flags, uid: seq<byte>, doc: Option<Document>): Imported
    requires |uid| == 6
  {
    if doc.None? || doc.value.mode.None? || doc.value.options.None? || TargetCommand(v, command, doc.value.target).None?
    then Imported(Some(EInval), f, uid, command)
    else
      var c := TargetCommand(v, command, doc.value.target).value;
      var mode, m := ModeOf(doc.value.mode.value), doc.value.options.value;
      var g := SetMode(v, f, mode, m);
      if mode == MODE_OATH_HOTP && RandomSeed in m then
        if AsBool(m[RandomSeed]) then Imported(Some(ENoRandom), g, uid, c)
        else
          var seed := if FixedSeedvalue in m then AsInt(m[FixedSeedvalue]) else 0;
          Imported(None, SetOptions(v, g, mode, m), SetImf(v, uid, seed), c)
      else Imported(None, SetOptions(v, g, mode, m), uid, c)
  }

  // ---------- export and import again ----------

  const CLEARED: Flags := Flags(0, 0, 0)

  /** What comes back of the flags, for any firmware. */
  function Restored(v: Firmware, f: Flags): Flags {
    var mode := Mode(f);
    var digits := map[OathDigits := JInt(if Has(f.cfg, CFGFLAG_OATH_HOTP8) then 8 else 6)];
    var g := SetMode(v, CLEARED, mode, digits);
    Flags(Union(g.tkt, Masked(f.tkt, TicketMask(mode, v))),
          Union(g.cfg, Masked(f.cfg, ConfigMask(mode, v))),
          Union(g.ext, Masked(f.ext, ExtendedMask(v))))
  }

  lemma OptionsRecord(f: Flags, uid: seq<byte>)
    requires |uid| == 6
    ensures
      var m := ExportOptions(f, uid);
      && Records(TicketFlags, Mode(f), f.tkt, Size(TicketFlags), m)
      && Records(ConfigFlags, Mode(f), f.cfg, Size(ConfigFlags), m)
      && Records(ExtendedFlags, Mode(f), f.ext, Size(ExtendedFlags), m)
      && (Mode(f) == MODE_OATH_HOTP ==> Extends(m, OathOptions(f.cfg, uid)))
  {
    hide Mode, Recorded, Records, Size, OathOptions, Kept, Extends;
    var mode := Mode(f);
    var m0 := if mode == MODE_OATH_HOTP then OathOptions(f.cfg, uid) else map[];
    var m1 := Recorded(TicketFlags, mode, f.tkt, Size(TicketFlags), m0);
    var m2 := Recorded(ConfigFlags, mode, f.cfg, Size(ConfigFlags), m1);
    var m3 := Recorded(ExtendedFlags, mode, f.ext, Size(ExtendedFlags), m2);
    RecordedIs(TicketFlags, mode, f.tkt, Size(TicketFlags), m0);
    RecordedIs(ConfigFlags, mode, f.cfg, Size(ConfigFlags), m1);
    RecordedIs(ExtendedFlags, mode, f.ext, Size(ExtendedFlags), m2);
    RecordsKept(TicketFlags, ConfigFlags, mode, f.tkt, m1, m2);
    RecordsKept(TicketFlags, ExtendedFlags, mode, f.tkt, m2, m3);
    RecordsKept(ConfigFlags, ExtendedFlags, mode, f.cfg, m2, m3);
    if mode == MODE_OATH_HOTP {
      OathOptionsKept(f.cfg, uid, m1, m2, m3);
    }
  }

  lemma OathOptionsAre(cfgFlags: byte, uid: seq<byte>, m: Options)
    requires |uid| == 6
    ensures Extends(m, OathOptions(cfgFlags, uid)) ==>
      && OathDigits in m && m[OathDigits] == JInt(if Has(cfgFlags, CFGFLAG_OATH_HOTP8) then 8 else 6)
      && RandomSeed in m && m[RandomSeed] == JBool(!FixedSeed(uid))
      && (FixedSeed(uid) ==> FixedSeedvalue in m && m[FixedSeedvalue] == JInt(if uid[5] == 0x01 then 16 else 0))
  {
    hide Has, FixedSeed;
  }

  predicate Extends(m: Options, m0: Options) { forall n :: n in m0 ==> n in m && m[n] == m0[n] }

  lemma OathOptionsKept(cfgFlags: byte, uid: seq<byte>, m1: Options, m2: Options, m3: Options)
    requires |uid| == 6
    requires Kept(TicketFlags, OathOptions(cfgFlags, uid), m1) && Kept(ConfigFlags, m1, m2)
        && Kept(ExtendedFlags, m2, m3)
    ensures Extends(m3, OathOptions(cfgFlags, uid))
  {
    hide OathOptions, Kept, Extends;
    OathNames(cfgFlags, uid);
    StillExtends(TicketFlags, OathOptions(cfgFlags, uid), OathOptions(cfgFlags, uid), m1);
    StillExtends(ConfigFlags, OathOptions(cfgFlags, uid), m1, m2);
    StillExtends(ExtendedFlags, OathOptions(cfgFlags, uid), m2, m3);
  }

  predicate OutsideTables(m: Options) { forall n :: n in m ==> Where(n).0.None? }

  lemma OathNames(cfgFlags: byte, uid: seq<byte>)
    requires |uid| == 6
    ensures OutsideTables(OathOptions(cfgFlags, uid)) && Extends(OathOptions(cfgFlags, uid), OathOptions(cfgFlags, uid))
  {
    hide Has, FixedSeed;
  }

  lemma StillExtends(t: Table, m0: Options, m: Options, m': Options)
    requires OutsideTables(m0) && Extends(m, m0) && Kept(t, m, m')
    ensures Extends(m', m0)
  {
    hide Where;
  }

  lemma RecordsKept(t: Table, other: Table, mode: byte, flags: byte, m: Options, m': Options)
    requires Records(t, mode, flags, Size(t), m) && Kept(other, m, m') && other != t
    ensures Records(t, mode, flags, Size(t), m')
  {
    hide Has, Applies, Row, Size, Where, SingleBit;
    forall j | 0 <= j < Size(t) && Row(t, j).name.Some?
      ensures Where(Row(t, j).name.value) == (Some(t), j)
    {
      NamesAreUnique(t, j);
    }
  }

  /** The command that the exported target leaves in a configuration that had command'; none when they do not fit. */
  function Retargeted(v: Firmware, command: nat, command': nat): Option<nat> {
    if Target(command).None? then Some(command')
    else if command' == 0 then Some(if CommandAllowed(v, command) then command else 0)
    else if command' == command then Some(command)
    else None
  }

  /** Importing an export into a cleared configuration.  It fails exactly when the configuration is for another target,
      which changes nothing, or when an OATH configuration has no fixed seed; otherwise it brings back the flags that
      Restored names and the exported moving factor. */
  lemma ExportThenImport(v: Firmware, command: nat, accCodeType: nat, f: Flags, uid: seq<byte>,
                         command': nat, uid': seq<byte>)
    requires |uid| == 6 && |uid'| == 6
    ensures
      var r := ImportDocument(v, command', CLEARED, uid', Some(ExportDocument(command, accCodeType, f, uid)));
      var c := Retargeted(v, command, command');
      && (c.None? ==> r == Imported(Some(EInval), CLEARED, uid', command'))
      && (c.Some? ==> r.command == c.value)
      && (c.Some? ==> r.error == if Mode(f) == MODE_OATH_HOTP && !FixedSeed(uid) then Some(ENoRandom) else None)
      && (r.error.None? ==> r.flags == Restored(v, f))
      && (r.error.None? && Mode(f) == MODE_OATH_HOTP && Capable(v, OathImf)
          ==> r.uid[4] == uid[4] && r.uid[5] == uid[5])
      && (Mode(f) != MODE_OATH_HOTP || !Capable(v, OathImf) ==> r.uid == uid')
  {
    hide Mode, Has, Records, FixedSeed, OathOptions, Extends, Size, ExportOptions, Chosen, Mask, TicketMask, ConfigMask,
         ExtendedMask, Union, Masked, Capable, ModeText, ModeOf, CommandAllowed, SetImf;
    OptionsRecord(f, uid);
    OathOptionsAre(f.cfg, uid, ExportOptions(f, uid));
    ModeTextRoundTrip(Mode(f));
    var m := ExportOptions(f, uid);
    ChosenIsMasked(TicketFlags, Mode(f), v, f.tkt, m, Size(TicketFlags));
    ChosenIsMasked(ConfigFlags, Mode(f), v, f.cfg, m, Size(ConfigFlags));
    ChosenIsMasked(ExtendedFlags, Mode(f), v, f.ext, m, Size(ExtendedFlags));
    TicketMaskIs(Mode(f), v);
    ConfigMaskIs(Mode(f), v);
    ExtendedMaskIs(Mode(f), v);
    SeedComesBack(v, uid, uid');
  }

  lemma SeedComesBack(v: Firmware, uid: seq<byte>, uid': seq<byte>)
    requires |uid| == 6 && |uid'| == 6
    ensures Capable(v, OathImf) && FixedSeed(uid) ==>
      var r := SetImf(v, uid', if uid[5] == 0x01 then 16 else 0);
      r[4] == uid[4] && r[5] == uid[5]
    ensures !Capable(v, OathImf) ==> SetImf(v, uid', if uid[5] == 0x01 then 16 else 0) == uid'
  {
    SmallBytes();
    hide Capable, ToByte;
  }

  lemma SmallBytes()
    ensures ToByte(0) == 0x00 && ToByte(1) == 0x01
  {
    NatBitsSmall(8);
    assert NatBits(1, 8) == NatBits(0, 7) + [true];
    NatBitsSmall(7);
  }

  lemma {:induction false} NatBitsSmall(w: nat)
    ensures NatBits(0, w) == Zeros(w)
  {
    if w > 0 {
      NatBitsSmall(w - 1);
    }
  }

  /** Firmware from 2.4 on has every capability that the exported flags need, except 3.0. */
  predicate AllCapable(v: Firmware) { v.V24OrGreater() && !v.V30() }

  lemma AllCapableHas(v: Firmware)
    requires AllCapable(v)
    ensures Capable(v, SlotTwo) && Capable(v, Oath) && Capable(v, ChalResp) && Capable(v, Static)
    ensures Capable(v, StaticExtras)
    ensures Capable(v, Serial) && Capable(v, SerialApi) && Capable(v, Numeric) && Capable(v, LedInv)
        && Capable(v, OathImf)
  {
  }

  lemma MasksWhenCapable(v: Firmware, mode: byte)
    requires AllCapable(v) && IsMode(mode)
    ensures TicketMask(mode, v) == if IsOutput(mode) then 0xbf else 0x80
    ensures ConfigMask(mode, v) ==
      if mode == MODE_CHAL_HMAC then 0x0c else if mode == MODE_CHAL_YUBICO then 0x08
      else if mode == MODE_STATIC_TICKET then 0xff else 0x0f
    ensures ExtendedMask(v) == 0xff
  {
    AllCapableHas(v);
    hide Capable;
  }

  lemma RestoredStatic(v: Firmware, f: Flags)
    requires AllCapable(v) && Mode(f) == MODE_STATIC_TICKET
    ensures Restored(v, f) == f
  {
    AllCapableHas(v);
    MasksWhenCapable(v, Mode(f));
    hide Capable, TicketMask, ConfigMask, ExtendedMask;
  }

  lemma RestoredOtp(v: Firmware, f: Flags)
    requires AllCapable(v) && Mode(f) == MODE_OTP_YUBICO
    ensures Restored(v, f) == f.(cfg := f.cfg & 0x0f)
  {
    MasksWhenCapable(v, Mode(f));
    hide Capable, TicketMask, ConfigMask, ExtendedMask;
  }

  lemma RestoredOath(v: Firmware, f: Flags)
    requires AllCapable(v) && Mode(f) == MODE_OATH_HOTP
    ensures Restored(v, f) == f.(cfg := f.cfg & 0x0f)
  {
    AllCapableHas(v);
    MasksWhenCapable(v, Mode(f));
    assert Has(f.tkt, TKTFLAG_OATH_HOTP);
    hide Capable, TicketMask, ConfigMask, ExtendedMask, Mode, SetMode, Has, Union, Masked, AllCapable;
    OathMode(v, Has(f.cfg, CFGFLAG_OATH_HOTP8));
    OathBits(f);
  }

  lemma OathMode(v: Firmware, eight: bool)
    requires Capable(v, Oath)
    ensures SetMode(v, CLEARED, MODE_OATH_HOTP, map[OathDigits := JInt(if eight then 8 else 6)])
      == Flags(0x40, if eight then 0x02 else 0, 0)
  {
    hide Capable;
  }

  lemma OathBits(f: Flags)
    requires Has(f.tkt, TKTFLAG_OATH_HOTP)
    ensures Union(0x40, Masked(f.tkt, 0xbf)) == f.tkt && Union(0, Masked(f.ext, 0xff)) == f.ext
    ensures Union(if Has(f.cfg, CFGFLAG_OATH_HOTP8) then 0x02 else 0, Masked(f.cfg, 0x0f)) == f.cfg & 0x0f
  {
  }

  lemma RestoredChallenge(v: Firmware, f: Flags)
    requires AllCapable(v) && (Mode(f) == MODE_CHAL_HMAC || Mode(f) == MODE_CHAL_YUBICO)
    ensures
      Restored(v, f) == Flags(0x40 | (f.tkt & 0x80),
                              if Mode(f) == MODE_CHAL_HMAC then 0x22 | (f.cfg & 0x0c) else 0x20 | (f.cfg & 0x08), f.ext)
  {
    AllCapableHas(v);
    MasksWhenCapable(v, Mode(f));
    hide Capable, TicketMask, ConfigMask, ExtendedMask;
  }

  /** With all capabilities: static and extended flags come back exactly; the bits lost in the other modes are those
      that the mode has no name for. */
  lemma RestoredExactly(v: Firmware, f: Flags)
    requires AllCapable(v)
    ensures
      var r := Restored(v, f);
      && r.ext == f.ext
      && (Mode(f) == MODE_STATIC_TICKET ==> r == f)
      && (Mode(f) == MODE_OTP_YUBICO || Mode(f) == MODE_OATH_HOTP ==> r.tkt == f.tkt && r.cfg == f.cfg & 0x0f)
      && (Mode(f) == MODE_CHAL_HMAC ==> r.tkt == 0x40 | (f.tkt & 0x80) && r.cfg == 0x22 | (f.cfg & 0x0c))
      && (Mode(f) == MODE_CHAL_YUBICO ==> r.tkt == 0x40 | (f.tkt & 0x80) && r.cfg == 0x20 | (f.cfg & 0x08))
  {
    hide Restored, Mode, AllCapable;
    if Mode(f) == MODE_STATIC_TICKET {
      RestoredStatic(v, f);
    } else if Mode(f) == MODE_OTP_YUBICO {
      RestoredOtp(v, f);
    } else if Mode(f) == MODE_OATH_HOTP {
      RestoredOath(v, f);
    } else {
      RestoredChallenge(v, f);
    }
  }

  predicate ModeCapable(v: Firmware, mode: byte) {
    if mode == MODE_OATH_HOTP then Capable(v, Oath)
    else if mode == MODE_CHAL_HMAC || mode == MODE_CHAL_YUBICO then Capable(v, ChalResp)
    else if mode == MODE_STATIC_TICKET then Capable(v, Static)
    else true
  }

  /** For any firmware, the mode comes back exactly when the firmware can have it. */
  lemma ModeSurvivesExactlyWhen(v: Firmware, f: Flags)
    ensures Mode(Restored(v, f)) == Mode(f) <==> ModeCapable(v, Mode(f))
  {
    MasksAreSmall(v, Mode(f));
    hide Capable, TicketMask, ConfigMask, ExtendedMask;
  }

  lemma MasksAreSmall(v: Firmware, mode: byte)
    requires IsMode(mode)
    ensures TicketMask(mode, v) & 0x40 == 0
    ensures mode != MODE_STATIC_TICKET ==> ConfigMask(mode, v) & 0x20 == 0
    ensures mode == MODE_CHAL_YUBICO ==> ConfigMask(mode, v) & 0x02 == 0
    ensures mode == MODE_STATIC_TICKET && !Capable(v, Static) ==> ConfigMask(mode, v) & 0x20 == 0
  {
    hide Capable;
  }

  // ---------- the code ----------

  /** One of the three loops of _ykp_json_export_cfg. */
  method ExportTable(t: Table, mode: byte, flags: byte, options: Options) returns (m: Options)
    ensures m == Recorded(t, mode, flags, Size(t), options)
  {
    hide Applies, Has, Row, Size;
    m := options;
    var i := 0;
    while i < Size(t)
      invariant i <= Size(t) && m == Recorded(t, mode, flags, i, options)
    {
      var p := Row(t, i);
      i := i + 1;
      if p.name.None? {
        continue;
      }
      if Applies(p, mode) {
        m := m[p.name.value := JBool(Has(flags, p.flag))];
      }
    }
  }

  method ExportOathOptions(cfgFlags: byte, uid: seq<byte>) returns (options: Options)
    requires |uid| == 6
    ensures options == OathOptions(cfgFlags, uid)
  {
    hide Has, FixedSeed;
    options := map[];
    options := options[OathDigits := JInt(if Has(cfgFlags, CFGFLAG_OATH_HOTP8) then 8 else 6)];
    if FixedSeed(uid) {
      options := options[FixedSeedvalue := JInt(if uid[5] == 0x01 then 16 else 0)];
      options := options[RandomSeed := JBool(false)];
    } else {
      options := options[RandomSeed := JBool(true)];
    }
  }

  method ExportConfig(cfg: Config) returns (doc: Document)
    requires cfg.Valid()
    ensures doc == ExportDocument(cfg.command, cfg.accCodeType, Flags(cfg.tktFlags, cfg.cfgFlags, cfg.extFlags),
        cfg.uid)
  {
    hide Recorded, Mode, ModeText, OathOptions, Size, Target, Protection;
    var f := Flags(cfg.tktFlags, cfg.cfgFlags, cfg.extFlags);
    var mode := Mode(f);
    var options: Options := map[];
    if mode == MODE_OATH_HOTP {
      options := ExportOathOptions(f.cfg, cfg.uid);
    }
    options := ExportTable(TicketFlags, mode, f.tkt, options);
    options := ExportTable(ConfigFlags, mode, f.cfg, options);
    options := ExportTable(ExtendedFlags, mode, f.ext, options);
    doc := Document(Some(ModeText(mode)), Target(cfg.command), Protection(cfg.accCodeType), Some(options));
  }

  lemma UnionStep(f: byte, a: byte, b: byte)
    ensures Union(Union(f, a), b) == Union(f, Union(a, b)) && Union(f, 0) == f
  {
  }

  /** One of the three loops of _ykp_json_import_cfg, over set_json_value. */
  method ImportTable(v: Firmware, t: Table, mode: byte, options: Options, flags: byte) returns (r: byte)
    ensures r == Union(flags, Chosen(t, mode, v, options, Size(t)))
  {
    hide Sets, Union, Row, Size;
    r := flags;
    UnionStep(flags, 0, 0);
    var i := 0;
    while i < Size(t)
      invariant i <= Size(t) && r == Union(flags, Chosen(t, mode, v, options, i))
    {
      var p := Row(t, i);
      UnionStep(flags, Chosen(t, mode, v, options, i), if Sets(p, mode, v, options) then p.flag else 0);
      UnionStep(r, 0, 0);
      r := SetJsonValue(v, p, mode, options, r);
      i := i + 1;
    }
  }

  method SetJsonValue(v: Firmware, p: Entry, mode: byte, options: Options, flags: byte) returns (r: byte)
    ensures r == if Sets(p, mode, v, options) then Union(flags, p.flag) else flags
  {
    hide Applies, Capable;
    r := flags;
    if p.name.None? {
      return;
    }
    if Applies(p, mode) && p.name.value in options && options[p.name.value].JBool? && options[p.name.value].b {
      r := SetFlag(v, flags, p.flag, p.capability);
    }
  }

  /** The member "targetConfig". */
  method ImportTarget(cfg: Config, target: Option<int>) returns (ok: bool)
    modifies cfg`command
    ensures
      var c := TargetCommand(cfg.version, old(cfg.command), target);
      ok == c.Some? && cfg.command == if ok then c.value else old(cfg.command)
  {
    hide CommandAllowed;
    if target.Some? {
      var command;
      if target.value == 1 {
        command := SLOT_CONFIG;
      } else if target.value == 2 {
        command := SLOT_CONFIG2;
      } else {
        return false;
      }
      if cfg.command == 0 {
        var done := cfg.ConfigureCommand(command);
      } else if cfg.command != command {
        return false;
      }
    }
    ok := true;
  }

  /** The flags and the moving factor of the mode itself; a random seed is not supported. */
  method ImportMode(cfg: Config, mode: byte, options: Options) returns (error: Option<ImportError>)
    requires cfg.Valid()
    modifies cfg`tktFlags, cfg`cfgFlags, cfg`uid
    ensures
      var oath := mode == MODE_OATH_HOTP && RandomSeed in options;
      var random := oath && AsBool(options[RandomSeed]);
      var seed := if FixedSeedvalue in options then AsInt(options[FixedSeedvalue]) else 0;
      && error == (if random then Some(ENoRandom) else None)
      && Flags(cfg.tktFlags, cfg.cfgFlags, cfg.extFlags)
           == SetMode(cfg.version, old(Flags(cfg.tktFlags, cfg.cfgFlags, cfg.extFlags)), mode, options)
      && cfg.uid == if oath && !random then SetImf(cfg.version, old(cfg.uid), seed) else old(cfg.uid)
  {
    hide Capable, SetImf, Union, AsInt, AsBool;
    var v := cfg.version;
    error := None;
    if mode == MODE_OATH_HOTP {
      cfg.tktFlags := SetFlag(v, cfg.tktFlags, TKTFLAG_OATH_HOTP, Oath);
      if OathDigits in options && AsInt(options[OathDigits]) == 8 {
        cfg.cfgFlags := SetFlag(v, cfg.cfgFlags, CFGFLAG_OATH_HOTP8, Oath);
      }
      if RandomSeed in options {
        var seed := 0;
        if AsBool(options[RandomSeed]) {
          return Some(ENoRandom);
        } else if FixedSeedvalue in options {
          seed := AsInt(options[FixedSeedvalue]);
        }
        cfg.uid := SetImf(v, cfg.uid, seed);
      }
    } else if mode == MODE_CHAL_HMAC {
      cfg.tktFlags := SetFlag(v, cfg.tktFlags, TKTFLAG_CHAL_RESP, ChalResp);
      cfg.cfgFlags := SetFlag(v, cfg.cfgFlags, CFGFLAG_CHAL_HMAC, ChalResp);
    } else if mode == MODE_CHAL_YUBICO {
      cfg.tktFlags := SetFlag(v, cfg.tktFlags, TKTFLAG_CHAL_RESP, ChalResp);
      cfg.cfgFlags := SetFlag(v, cfg.cfgFlags, CFGFLAG_CHAL_YUBICO, ChalResp);
    } else if mode == MODE_STATIC_TICKET {
      cfg.cfgFlags := SetFlag(v, cfg.cfgFlags, CFGFLAG_STATIC_TICKET, Static);
    }
  }

  /** The loops over the three tables. */
  method ImportTables(cfg: Config, mode: byte, options: Options)
    modifies cfg`tktFlags, cfg`cfgFlags, cfg`extFlags
    ensures Flags(cfg.tktFlags, cfg.cfgFlags, cfg.extFlags)
      == SetOptions(cfg.version, old(Flags(cfg.tktFlags, cfg.cfgFlags, cfg.extFlags)), mode, options)
  {
    hide Chosen, Union, Size;
    cfg.tktFlags := ImportTable(cfg.version, TicketFlags, mode, options, cfg.tktFlags);
    cfg.cfgFlags := ImportTable(cfg.version, ConfigFlags, mode, options, cfg.cfgFlags);
    cfg.extFlags := ImportTable(cfg.version, ExtendedFlags, mode, options, cfg.extFlags);
  }

  method ImportConfig(cfg: Config, doc: Option<Document>) returns (error: Option<ImportError>)
    requires cfg.Valid()
    modifies cfg`command, cfg`tktFlags, cfg`cfgFlags, cfg`extFlags, cfg`uid
    ensures
      var r := ImportDocument(cfg.version, old(cfg.command), old(Flags(cfg.tktFlags, cfg.cfgFlags, cfg.extFlags)),
                              old(cfg.uid), doc);
      error == r.error && cfg.command == r.command && cfg.uid == r.uid
      && Flags(cfg.tktFlags, cfg.cfgFlags, cfg.extFlags) == r.flags
    ensures cfg.Valid()
  {
    hide TargetCommand, ModeOf, SetMode, SetImf, SetOptions, AsInt, AsBool;
    if doc.None? || doc.value.mode.None? || doc.value.options.None? {
      return Some(EInval);
    }
    var options := doc.value.options.value;
    var ok := ImportTarget(cfg, doc.value.target);
    if !ok {
      return Some(EInval);
    }
    var mode := ModeOf(doc.value.mode.value);
    error := ImportMode(cfg, mode, options);
    if error.Some? {
      return;
    }
    ImportTables(cfg, mode, options);
  }
}
