/** What the JSON members mean: the bit behind every name, the modes that have it, and what an import sets.

    The bits are those of ykcore/ykdef.h; nothing here goes through the rows of the tables. */
module JsonNames {
  import opened Bits
  import opened YkConfig
  import opened JsonConfig
  import opened FlagBits

  /** The modes that have a name. */
  datatype Group = AnyMode | OutputModes | StaticMode | HmacMode | ChallengeModes

  datatype Meaning = Meaning(table: Table, bit: byte, group: Group, capability: Capability)

  /** The bit behind a name; the three members for OATH stand for none. */
  function MeaningOf(n: Name): Option<Meaning> {
    match n
    case TabFirst => Some(Meaning(TicketFlags, 0x01, OutputModes, TicketMods))
    case TabBetween => Some(Meaning(TicketFlags, 0x02, OutputModes, TicketMods))
    case TabLast => Some(Meaning(TicketFlags, 0x04, OutputModes, TicketMods))
    case AppendDelay1 => Some(Meaning(TicketFlags, 0x08, OutputModes, TicketMods))
    case AppendDelay2 => Some(Meaning(TicketFlags, 0x10, OutputModes, TicketMods))
    case AppendCR => Some(Meaning(TicketFlags, 0x20, OutputModes, TicketMods))
    case ProtectSecond => Some(Meaning(TicketFlags, 0x80, AnyMode, SlotTwo))
    case SendRef => Some(Meaning(ConfigFlags, 0x01, OutputModes, TicketMods))
    case ShortTicket => Some(Meaning(ConfigFlags, 0x02, OutputModes, StaticExtras))
    case Pacing10ms => Some(Meaning(ConfigFlags, 0x04, OutputModes, TicketMods))
    case HmacLt64 => Some(Meaning(ConfigFlags, 0x04, HmacMode, ChalResp))
    case Pacing20ms => Some(Meaning(ConfigFlags, 0x08, OutputModes, TicketMods))
    case ButtonReqd => Some(Meaning(ConfigFlags, 0x08, ChallengeModes, ChalResp))
    case StrongPw1 => Some(Meaning(ConfigFlags, 0x10, StaticMode, StaticExtras))
    case StaticTicket => Some(Meaning(ConfigFlags, 0x20, StaticMode, Static))
    case StrongPw2 => Some(Meaning(ConfigFlags, 0x40, StaticMode, StaticExtras))
    case ManUpdate => Some(Meaning(ConfigFlags, 0x80, StaticMode, StaticExtras))
    case SerialBtnVisible => Some(Meaning(ExtendedFlags, 0x01, AnyMode, Serial))
    case SerialUsbVisible => Some(Meaning(ExtendedFlags, 0x02, AnyMode, Serial))
    case SerialApiVisible => Some(Meaning(ExtendedFlags, 0x04, AnyMode, SerialApi))
    case UseNumericKeypad => Some(Meaning(ExtendedFlags, 0x08, AnyMode, Numeric))
    case FastTrig => Some(Meaning(ExtendedFlags, 0x10, AnyMode, Fast))
    case AllowUpdate => Some(Meaning(ExtendedFlags, 0x20, AnyMode, Update))
    case DormantSlot => Some(Meaning(ExtendedFlags, 0x40, AnyMode, Dormant))
    case LedInverted => Some(Meaning(ExtendedFlags, 0x80, AnyMode, LedInv))
    case OathDigits => None
    case RandomSeed => None
    case FixedSeedvalue => None
  }

  /** The spelling of the names. */
  lemma Spelling()
    ensures JsonText(TabFirst) == "tabFirst" && JsonText(TabBetween) == "tabBetween"
    ensures JsonText(TabLast) == "tabLast" && JsonText(AppendDelay1) == "appendDelay1"
    ensures JsonText(AppendDelay2) == "appendDelay2" && JsonText(AppendCR) == "appendCR"
    ensures JsonText(ProtectSecond) == "protectSecond"
    ensures JsonText(HmacLt64) == "hmacLt64" && JsonText(ButtonReqd) == "buttonReqd"
    ensures JsonText(SendRef) == "sendRef" && JsonText(Pacing10ms) == "pacing10ms"
    ensures JsonText(Pacing20ms) == "pacing20ms"
    ensures JsonText(StaticTicket) == "staticTicket" && JsonText(ShortTicket) == "shortTicket"
    ensures JsonText(StrongPw1) == "strongPw1" && JsonText(StrongPw2) == "strongPw2"
    ensures JsonText(ManUpdate) == "manUpdate"
    ensures JsonText(SerialBtnVisible) == "serialBtnVisible" && JsonText(SerialUsbVisible) == "serialUsbVisible"
    ensures JsonText(SerialApiVisible) == "serialApiVisible" && JsonText(UseNumericKeypad) == "useNumericKeypad"
    ensures JsonText(FastTrig) == "fastTrig" && JsonText(AllowUpdate) == "allowUpdate"
    ensures JsonText(DormantSlot) == "dormant" && JsonText(LedInverted) == "ledInverted"
    ensures JsonText(OathDigits) == "oathDigits" && JsonText(RandomSeed) == "randomSeed"
    ensures JsonText(FixedSeedvalue) == "fixedSeedvalue"
  {
    hide *;
    TicketSpelling();
    ModeSpelling();
    StaticSpelling();
    SerialSpelling();
    UpdateSpelling();
    OathSpelling();
  }

  lemma TicketSpelling()
    ensures JsonText(TabFirst) == "tabFirst" && JsonText(TabBetween) == "tabBetween"
    ensures JsonText(TabLast) == "tabLast" && JsonText(AppendDelay1) == "appendDelay1"
    ensures JsonText(AppendDelay2) == "appendDelay2" && JsonText(AppendCR) == "appendCR"
    ensures JsonText(ProtectSecond) == "protectSecond"
  {
    hide ConfigText, ExtendedText, OathText;
  }

  lemma ModeSpelling()
    ensures JsonText(HmacLt64) == "hmacLt64" && JsonText(ButtonReqd) == "buttonReqd"
    ensures JsonText(SendRef) == "sendRef" && JsonText(Pacing10ms) == "pacing10ms"
    ensures JsonText(Pacing20ms) == "pacing20ms"
  {
    hide TicketText, ExtendedText, OathText;
  }

  lemma StaticSpelling()
    ensures JsonText(StaticTicket) == "staticTicket" && JsonText(ShortTicket) == "shortTicket"
    ensures JsonText(StrongPw1) == "strongPw1" && JsonText(StrongPw2) == "strongPw2"
    ensures JsonText(ManUpdate) == "manUpdate"
  {
    hide TicketText, ExtendedText, OathText;
  }

  lemma SerialSpelling()
    ensures JsonText(SerialBtnVisible) == "serialBtnVisible" && JsonText(SerialUsbVisible) == "serialUsbVisible"
    ensures JsonText(SerialApiVisible) == "serialApiVisible" && JsonText(UseNumericKeypad) == "useNumericKeypad"
  {
    hide TicketText, ConfigText, OathText;
  }

  lemma UpdateSpelling()
    ensures JsonText(FastTrig) == "fastTrig" && JsonText(AllowUpdate) == "allowUpdate"
    ensures JsonText(DormantSlot) == "dormant" && JsonText(LedInverted) == "ledInverted"
  {
    hide TicketText, ConfigText, OathText;
  }

  lemma OathSpelling()
    ensures JsonText(OathDigits) == "oathDigits" && JsonText(RandomSeed) == "randomSeed"
    ensures JsonText(FixedSeedvalue) == "fixedSeedvalue"
  {
    hide TicketText, ConfigText, ExtendedText;
  }

  // ---------- the mode of a configuration, by its bits ----------

  predicate Challenge(f: Flags) { f.tkt & 0x40 != 0 && f.cfg & 0x20 != 0 }

  predicate Hmac(f: Flags) { Challenge(f) && f.cfg & 0x02 != 0 }

  predicate Counted(f: Flags) { f.tkt & 0x40 != 0 && f.cfg & 0x20 == 0 }

  predicate Password(f: Flags) { f.tkt & 0x40 == 0 && f.cfg & 0x20 != 0 }

  lemma ModeIs(f: Flags)
    ensures Mode(f) ==
      if Hmac(f) then 0x01 else if Challenge(f) then 0x08 else if Counted(f) then 0x02
      else if Password(f) then 0x10 else 0x04
  {
  }

  predicate Shown(g: Group, f: Flags) {
    match g
    case AnyMode => true
    case OutputModes => !Challenge(f)
    case StaticMode => Password(f)
    case HmacMode => Hmac(f)
    case ChallengeModes => Challenge(f)
  }

  /** The same for the mode of a document, by its text; any unknown text means Yubico OTP. */
  predicate Taken(g: Group, text: string) {
    match g
    case AnyMode => true
    case OutputModes => text != "hmacCR" && text != "yubicoCR"
    case StaticMode => text == "staticTicket"
    case HmacMode => text == "hmacCR"
    case ChallengeModes => text == "hmacCR" || text == "yubicoCR"
  }

  /** A group as a set of the numbers for modes. */
  predicate InGroup(g: Group, mode: byte) {
    match g
    case AnyMode => true
    case OutputModes => mode == 0x02 || mode == 0x04 || mode == 0x10
    case StaticMode => mode == 0x10
    case HmacMode => mode == 0x01
    case ChallengeModes => mode == 0x01 || mode == 0x08
  }

  lemma ShownIs(g: Group, f: Flags)
    ensures Shown(g, f) <==> InGroup(g, Mode(f))
  {
    ModeIs(f);
    hide Mode;
  }

  lemma TextMode(text: string)
    ensures ModeOf(text) ==
      if text == "hmacCR" then 0x01 else if text == "yubicoCR" then 0x08 else if text == "oathHOTP" then 0x02
      else if text == "staticTicket" then 0x10 else 0x04
  {
    assert "yubicoCR"[0] != "oathHOTP"[0];
    assert |"hmacCR"| == 6 && |"staticTicket"| == 12 && |"oathHOTP"| == 8 && |"yubicoCR"| == 8;
  }

  lemma TakenIs(g: Group, text: string)
    ensures Taken(g, text) <==> InGroup(g, ModeOf(text))
  {
    TextMode(text);
    hide ModeOf;
    assert "yubicoCR"[0] != "oathHOTP"[0];
    assert |"hmacCR"| == 6 && |"staticTicket"| == 12 && |"oathHOTP"| == 8 && |"yubicoCR"| == 8;
  }

  // ---------- the tables say the same ----------

  /** The set of modes in which every bit is one mode. */
  function MaskOf(g: Group): byte {
    match g
    case AnyMode => 0xff
    case OutputModes => 0x16
    case StaticMode => 0x10
    case HmacMode => 0x01
    case ChallengeModes => 0x09
  }

  lemma AppliesIs(e: Entry, g: Group, mode: byte)
    requires e.mode == MaskOf(g) && IsMode(mode)
    ensures Applies(e, mode) == InGroup(g, mode)
  {
  }

  /** A row stands for a name. */
  predicate Stands(e: Entry, t: Table, n: Name) {
    && e.name == Some(n) && MeaningOf(n).Some? && MeaningOf(n).value.table == t
    && MeaningOf(n).value.bit == e.flag && MeaningOf(n).value.capability == e.capability
    && e.mode == MaskOf(MeaningOf(n).value.group)
  }

  lemma RowStands(n: Name)
    requires MeaningOf(n).Some?
    ensures
      var (t, i) := Where(n);
      t == Some(MeaningOf(n).value.table) && i < Size(t.value) && Stands(Row(t.value, i), t.value, n)
  {
    hide Stands, TicketRow, ConfigRow, ExtendedRow;
    match MeaningOf(n).value.table
    case TicketFlags => TicketStands(n);
    case ConfigFlags => ConfigStands(n);
    case ExtendedFlags => ExtendedStands(n);
  }

  lemma TicketStands(n: Name)
    requires MeaningOf(n).Some? && MeaningOf(n).value.table == TicketFlags
    ensures var (t, i) := Where(n); t == Some(TicketFlags) && i < 9 && Stands(TicketRow(i), TicketFlags, n)
  {
  }

  lemma ConfigStands(n: Name)
    requires MeaningOf(n).Some? && MeaningOf(n).value.table == ConfigFlags
    ensures var (t, i) := Where(n); t == Some(ConfigFlags) && i < 18 && Stands(ConfigRow(i), ConfigFlags, n)
  {
  }

  lemma ExtendedStands(n: Name)
    requires MeaningOf(n).Some? && MeaningOf(n).value.table == ExtendedFlags
    ensures var (t, i) := Where(n); t == Some(ExtendedFlags) && i < 8 && Stands(ExtendedRow(i), ExtendedFlags, n)
  {
  }

  // ---------- export ----------

  /** A table adds a name exactly when the mode has it. */
  lemma {:induction false} NameRecorded(t: Table, mode: byte, flags: byte, i: nat, m: Options, n: Name, j: nat)
    requires i <= Size(t) && j < Size(t) && Row(t, j).name == Some(n)
    ensures n in Recorded(t, mode, flags, i, m) <==> n in m || (j < i && Applies(Row(t, j), mode))
  {
    hide Has, Row, Where, Size, Applies;
    if i > 0 {
      NameRecorded(t, mode, flags, i - 1, m, n, j);
      NamesAreUnique(t, j);
      if Row(t, i - 1).name.Some? {
        NamesAreUnique(t, i - 1);
      }
    }
  }

  lemma KeptLacks(t: Table, m: Options, m': Options, n: Name)
    requires Kept(t, m, m') && Where(n).0 != Some(t)
    ensures n in m' <==> n in m
  {
    hide Where;
  }

  lemma OnlyOath(f: Flags, uid: seq<byte>, n: Name)
    requires |uid| == 6 && MeaningOf(n).Some?
    ensures n !in OathOptions(f.cfg, uid)
  {
    hide Has, FixedSeed;
  }

  lemma NameExported(f: Flags, uid: seq<byte>, n: Name)
    requires |uid| == 6 && MeaningOf(n).Some?
    ensures
      var (t, i) := Where(n);
      t.Some? && i < Size(t.value) && (n in ExportOptions(f, uid) <==> Applies(Row(t.value, i), Mode(f)))
  {
    hide Mode, Recorded, Size, OathOptions, Kept, Applies, Where, MeaningOf, Row;
    RowStands(n);
    OnlyOath(f, uid, n);
    var mode := Mode(f);
    var (t, i) := Where(n);
    var m0 := if mode == MODE_OATH_HOTP then OathOptions(f.cfg, uid) else map[];
    var m1 := Recorded(TicketFlags, mode, f.tkt, Size(TicketFlags), m0);
    var m2 := Recorded(ConfigFlags, mode, f.cfg, Size(ConfigFlags), m1);
    var m3 := Recorded(ExtendedFlags, mode, f.ext, Size(ExtendedFlags), m2);
    NameInTable(TicketFlags, mode, f.tkt, m0, n);
    NameInTable(ConfigFlags, mode, f.cfg, m1, n);
    NameInTable(ExtendedFlags, mode, f.ext, m2, n);
  }

  lemma NameInTable(t: Table, mode: byte, flags: byte, m: Options, n: Name)
    requires MeaningOf(n).Some?
    ensures
      var (tt, i) := Where(n);
      tt.Some? && i < Size(tt.value) && (n in Recorded(t, mode, flags, Size(t), m)
          <==> n in m || (tt.value == t && Applies(Row(t, i), mode)))
  {
    hide Recorded, Size, Kept, Applies, Where, MeaningOf, Row;
    RowStands(n);
    var (tt, i) := Where(n);
    if tt.value == t {
      NameRecorded(t, mode, flags, Size(t), m, n, i);
    } else {
      RecordedIs(t, mode, flags, Size(t), m);
      KeptLacks(t, m, Recorded(t, mode, flags, Size(t), m), n);
    }
  }

  /** Every exported name says whether its bit is set, and is there exactly in the modes that have it. */
  lemma ExportedFlag(f: Flags, uid: seq<byte>, n: Name)
    requires |uid| == 6 && MeaningOf(n).Some?
    ensures
      var w, m := MeaningOf(n).value, ExportOptions(f, uid);
      && (n in m <==> Shown(w.group, f))
      && (n in m ==> m[n] == JBool(HasBit(FlagsIn(f, w.table), w.bit)))
  {
    hide Mode, Size, Applies, Where, MeaningOf, Row, Shown, ExportOptions, Records, HasBit, Has, InGroup;
    RowStands(n);
    var (t, i) := Where(n);
    ShownIs(MeaningOf(n).value.group, f);
    AppliesIs(Row(t.value, i), MeaningOf(n).value.group, Mode(f));
    NameExported(f, uid, n);
    OptionsRecord(f, uid);
    RecordOf(t.value, Mode(f), FlagsIn(f, t.value), i, ExportOptions(f, uid));
  }

  lemma RecordOf(t: Table, mode: byte, flags: byte, i: nat, m: Options)
    requires i < Size(t) && Row(t, i).name.Some?
    ensures Records(t, mode, flags, Size(t), m) && Applies(Row(t, i), mode) ==>
      Row(t, i).name.value in m && m[Row(t, i).name.value] == JBool(HasBit(flags, Row(t, i).flag))
  {
    NamesAreUnique(t, i);
    hide Size, Row, Applies, Has, HasBit;
    HasIsBit(flags, Row(t, i).flag);
  }

  lemma HasIsBit(flags: byte, bit: byte)
    requires SingleBit(bit)
    ensures Has(flags, bit) == HasBit(flags, bit)
  {
  }

  /** The members beside the options: the mode by the bits, the slot and the protection by their numbers. */
  lemma ExportedMembers(command: nat, accCodeType: nat, f: Flags, uid: seq<byte>)
    requires |uid| == 6
    ensures
      var doc := ExportDocument(command, accCodeType, f, uid);
      && doc.mode == Some(if Hmac(f) then "hmacCR" else if Challenge(f) then "yubicoCR"
                          else if Counted(f) then "oathHOTP" else if Password(f) then "staticTicket" else "yubicoOTP")
      && (doc.target == Some(1) <==> command == 1) && (doc.target == Some(2) <==> command == 3)
      && (doc.target.None? <==> command != 1 && command != 3)
      && (doc.protection == Some("none") <==> accCodeType == 1)
      && (doc.protection == Some("random") <==> accCodeType == 2)
      && (doc.protection == Some("id") <==> accCodeType == 3)
      && (doc.protection.None? <==> accCodeType != 1 && accCodeType != 2 && accCodeType != 3)
      && doc.options == Some(ExportOptions(f, uid))
  {
    ModeIs(f);
    hide Mode, Challenge, Password, Counted, Hmac, ExportOptions;
    assert |"none"| == 4 && |"random"| == 6 && |"id"| == 2;
  }

  /** The digits are given by one bit, and a moving factor of 0 or 16 is written down. */
  lemma ExportedOath(f: Flags, uid: seq<byte>)
    requires |uid| == 6 && Counted(f)
    ensures
      var m := ExportOptions(f, uid);
      var fixed := uid[4] == 0 && (uid[5] == 0 || uid[5] == 1);
      && OathDigits in m && m[OathDigits] == JInt(if HasBit(f.cfg, 0x02) then 8 else 6)
      && RandomSeed in m && m[RandomSeed] == JBool(!fixed)
      && (fixed ==> FixedSeedvalue in m && m[FixedSeedvalue] == JInt(if uid[5] == 1 then 16 else 0))
  {
    ModeIs(f);
    HasIsBit(f.cfg, 0x02);
    OptionsRecord(f, uid);
    OathOptionsAre(f.cfg, uid, ExportOptions(f, uid));
    hide Mode, ExportOptions, Records, Extends, Has, HasBit, OathOptions;
  }

  // ---------- import ----------

  /** A member of the options asks for a bit that the mode has and the firmware can set. */
  predicate Asks(v: Firmware, m: Options, text: string, n: Name, t: Table, bit: byte) {
    && MeaningOf(n).Some? && MeaningOf(n).value.table == t && MeaningOf(n).value.bit == bit
    && Taken(MeaningOf(n).value.group, text) && n in m && m[n] == JBool(true)
    && Capable(v, MeaningOf(n).value.capability)
  }

  /** The bits of the mode itself. */
  predicate ModeAsks(v: Firmware, m: Options, text: string, t: Table, bit: byte) {
    match t
    case TicketFlags =>
      bit == 0x40 && ((text == "oathHOTP" && Capable(v, Oath))
                      || ((text == "hmacCR" || text == "yubicoCR") && Capable(v, ChalResp)))
    case ConfigFlags =>
      || (bit == 0x20 && (text == "hmacCR" || text == "yubicoCR") && Capable(v, ChalResp))
      || (bit == 0x02 && text == "hmacCR" && Capable(v, ChalResp))
      || (bit == 0x20 && text == "staticTicket" && Capable(v, Static))
      || (bit == 0x02 && text == "oathHOTP" && Capable(v, Oath) && OathDigits in m && m[OathDigits] == JInt(8))
    case ExtendedFlags => false
  }

  lemma {:induction false} ChosenBit(t: Table, mode: byte, v: Firmware, m: Options, i: nat, bit: byte)
    requires i <= Size(t) && SingleBit(bit)
    ensures HasBit(Chosen(t, mode, v, m, i), bit) <==>
      exists j :: 0 <= j < i && Row(t, j).flag == bit && Sets(Row(t, j), mode, v, m)
  {
    hide Row, Size, Sets, Union, HasBit, SingleBit;
    NothingSet(bit);
    if i > 0 {
      ChosenBit(t, mode, v, m, i - 1, bit);
      var e := Row(t, i - 1);
      UnionBit(Chosen(t, mode, v, m, i - 1), if Sets(e, mode, v, m) then e.flag else 0, bit);
      if Sets(e, mode, v, m) {
        SetsNamed(t, i - 1, mode, v, m);
        OneBit(e.flag, bit);
      }
    }
  }

  lemma SetsNamed(t: Table, i: nat, mode: byte, v: Firmware, m: Options)
    requires i < Size(t) && Sets(Row(t, i), mode, v, m)
    ensures Row(t, i).name.Some? && SingleBit(Row(t, i).flag)
  {
    NamesAreUnique(t, i);
  }

  lemma NamedMeans(t: Table, i: nat)
    requires i < Size(t) && Row(t, i).name.Some?
    ensures MeaningOf(Row(t, i).name.value).Some? && Stands(Row(t, i), t, Row(t, i).name.value)
  {
    NamesAreUnique(t, i);
    TableMeans(Row(t, i).name.value);
    hide Row, Size, Where, MeaningOf, SingleBit;
    RowStands(Row(t, i).name.value);
  }

  lemma TableMeans(n: Name)
    ensures MeaningOf(n).Some? <==> Where(n).0.Some?
  {
  }

  lemma SetsIsAsked(t: Table, i: nat, v: Firmware, m: Options, text: string, n: Name)
    requires i < Size(t) && Stands(Row(t, i), t, n)
    ensures Sets(Row(t, i), ModeOf(text), v, m) <==> Asks(v, m, text, n, t, Row(t, i).flag)
  {
    hide Row, Size, MeaningOf, Taken, Applies, Capable, ModeOf, MaskOf, InGroup;
    TakenIs(MeaningOf(n).value.group, text);
    AppliesIs(Row(t, i), MeaningOf(n).value.group, ModeOf(text));
  }

  /** The bits that a table sets are those that some member asks for. */
  lemma TableSets(v: Firmware, m: Options, text: string, t: Table, bit: byte)
    requires SingleBit(bit)
    ensures HasBit(Chosen(t, ModeOf(text), v, m, Size(t)), bit) <==> exists n :: Asks(v, m, text, n, t, bit)
  {
    hide Row, Size, Sets, HasBit, Chosen, Asks, Stands, MeaningOf, ModeOf, SingleBit;
    ChosenBit(t, ModeOf(text), v, m, Size(t), bit);
    forall j | 0 <= j < Size(t) && Row(t, j).flag == bit && Sets(Row(t, j), ModeOf(text), v, m)
      ensures exists n :: Asks(v, m, text, n, t, bit)
    {
      SetsNamed(t, j, ModeOf(text), v, m);
      NamedMeans(t, j);
      SetsIsAsked(t, j, v, m, text, Row(t, j).name.value);
    }
    forall n | Asks(v, m, text, n, t, bit)
      ensures exists j :: 0 <= j < Size(t) && Row(t, j).flag == bit && Sets(Row(t, j), ModeOf(text), v, m)
    {
      AsksMeans(v, m, text, n, t, bit);
      RowStands(n);
      var (tt, j) := Where(n);
      SetsIsAsked(t, j, v, m, text, n);
      StandsBit(Row(t, j), t, n);
    }
  }

  lemma AsksMeans(v: Firmware, m: Options, text: string, n: Name, t: Table, bit: byte)
    requires Asks(v, m, text, n, t, bit)
    ensures MeaningOf(n).Some? && MeaningOf(n).value.table == t && MeaningOf(n).value.bit == bit
  {
  }

  lemma StandsBit(e: Entry, t: Table, n: Name)
    requires Stands(e, t, n)
    ensures MeaningOf(n).Some? && e.flag == MeaningOf(n).value.bit
  {
  }

  lemma ModeSets(v: Firmware, f: Flags, m: Options, text: string, t: Table, bit: byte)
    requires SingleBit(bit)
    ensures HasBit(FlagsIn(SetMode(v, f, ModeOf(text), m), t), bit) <==>
      HasBit(FlagsIn(f, t), bit) || ModeAsks(v, m, text, t, bit)
  {
    TextMode(text);
    hide ModeOf, Capable, Union, HasBit, SingleBit;
    OneBit(0x40, bit);
    OneBit(0x20, bit);
    OneBit(0x02, bit);
    BothBits(bit);
    UnionBit(f.tkt, 0x40, bit);
    UnionBit(f.cfg, 0x20, bit);
    UnionBit(f.cfg, 0x22, bit);
    UnionBit(f.cfg, 0x02, bit);
    assert |"hmacCR"| == 6 && |"staticTicket"| == 12 && |"oathHOTP"| == 8 && |"yubicoCR"| == 8;
    assert "yubicoCR"[0] != "oathHOTP"[0];
  }

  lemma BothBits(bit: byte)
    requires SingleBit(bit)
    ensures HasBit(0x22, bit) == (bit == 0x20 || bit == 0x02)
  {
  }

  /** An import that succeeds leaves exactly these bits set: those that were set, those of the mode, and those that a
      member asks for. */
  lemma ImportedBits(v: Firmware, command: nat, f: Flags, uid: seq<byte>, doc: Option<Document>, t: Table, bit: byte)
    requires |uid| == 6 && SingleBit(bit)
    requires ImportDocument(v, command, f, uid, doc).error.None?
    ensures doc.Some? && doc.value.mode.Some? && doc.value.options.Some?
    ensures
      var text, m := doc.value.mode.value, doc.value.options.value;
      HasBit(FlagsIn(ImportDocument(v, command, f, uid, doc).flags, t), bit) <==>
        HasBit(FlagsIn(f, t), bit) || ModeAsks(v, m, text, t, bit) || exists n :: Asks(v, m, text, n, t, bit)
  {
    hide SetMode, SetImf, SetOptions, ModeOf, TargetCommand, SingleBit, HasBit, Asks, ModeAsks, FlagsIn, AsInt, AsBool;
    var text, m := doc.value.mode.value, doc.value.options.value;
    ModeSets(v, f, m, text, t, bit);
    TableSets(v, m, text, t, bit);
    OptionsAdd(v, SetMode(v, f, ModeOf(text), m), ModeOf(text), m, t, bit);
  }

  lemma OptionsAdd(v: Firmware, f: Flags, mode: byte, m: Options, t: Table, bit: byte)
    ensures HasBit(FlagsIn(SetOptions(v, f, mode, m), t), bit) <==>
      HasBit(FlagsIn(f, t), bit) || HasBit(Chosen(t, mode, v, m, Size(t)), bit)
  {
    hide Chosen, Size, Union, HasBit;
    UnionBit(FlagsIn(f, t), Chosen(t, mode, v, m, Size(t)), bit);
  }

  /** A target that the configuration can take: it has none yet, or is for that slot already. */
  predicate Fits(command: nat, target: Option<int>) {
    target.None? || (target == Some(1) && (command == 0 || command == 1))
    || (target == Some(2) && (command == 0 || command == 3))
  }

  predicate Complete(doc: Option<Document>) { doc.Some? && doc.value.mode.Some? && doc.value.options.Some? }

  predicate WantsRandom(doc: Document)
    requires doc.options.Some?
  {
    var m := doc.options.value;
    doc.mode == Some("oathHOTP") && RandomSeed in m && m[RandomSeed] != JBool(false) && m[RandomSeed] != JInt(0)
  }

  /** When an import fails, and which slot it leaves the configuration for. */
  lemma ImportOutcome(v: Firmware, command: nat, f: Flags, uid: seq<byte>, doc: Option<Document>)
    requires |uid| == 6
    ensures
      var r := ImportDocument(v, command, f, uid, doc);
      if !Complete(doc) || !Fits(command, doc.value.target) then r == Imported(Some(EInval), f, uid, command)
      else
        && r.error == (if WantsRandom(doc.value) then Some(ENoRandom) else None)
        && (r.command == if command != 0 || doc.value.target.None? then command
                         else if doc.value.target == Some(1) then 1 else if Capable(v, SlotTwo) then 3 else 0)
  {
    CommandsMatchCapabilities(v);
    if doc.Some? && doc.value.mode.Some? {
      TextMode(doc.value.mode.value);
    }
    FirstSlot(v);
    hide SetMode, SetImf, SetOptions, ModeOf, CommandAllowed, Capable;
    assert |"hmacCR"| == 6 && |"staticTicket"| == 12 && |"oathHOTP"| == 8 && |"yubicoCR"| == 8;
    assert "yubicoCR"[0] != "oathHOTP"[0];
  }

  lemma FirstSlot(v: Firmware)
    ensures CommandAllowed(v, 1)
  {
  }

  /** The moving factor of an OATH import: the fixed value divided by 16 as a big-endian number in the last two octets
      of the uid, when it is a multiple of 16 in range and the firmware has moving factors; otherwise the uid stays. */
  lemma ImportedSeed(v: Firmware, command: nat, f: Flags, uid: seq<byte>, doc: Option<Document>)
    requires |uid| == 6 && ImportDocument(v, command, f, uid, doc).error.None?
    ensures Complete(doc)
    ensures
      var r, m := ImportDocument(v, command, f, uid, doc), doc.value.options.value;
      var seed := if FixedSeedvalue in m then AsInt(m[FixedSeedvalue]) else 0;
      && |r.uid| == 6 && r.uid[..4] == uid[..4]
      && if doc.value.mode == Some("oathHOTP") && RandomSeed in m && Capable(v, OathImf)
            && 0 <= seed <= 0xffff0 && seed % 16 == 0
         then 16 * (256 * FromByte(r.uid[4]) + FromByte(r.uid[5])) == seed
         else r.uid == uid
  {
    hide SetMode, SetOptions, ModeOf, TargetCommand, Capable, SetImf, GetImf, FromByte, AsInt, AsBool;
    var m := doc.value.options.value;
    TextMode(doc.value.mode.value);
    assert |"hmacCR"| == 6 && |"oathHOTP"| == 8 && |"yubicoCR"| == 8 && "yubicoCR"[0] != "oathHOTP"[0];
    SeedSet(v, uid, if FixedSeedvalue in m then AsInt(m[FixedSeedvalue]) else 0);
  }

  lemma SeedSet(v: Firmware, uid: seq<byte>, seed: int)
    requires |uid| == 6
    ensures
      var r := SetImf(v, uid, seed);
      && r[..4] == uid[..4]
      && if Capable(v, OathImf) && 0 <= seed <= 0xffff0 && seed % 16 == 0
         then 16 * (256 * FromByte(r[4]) + FromByte(r[5])) == seed
         else r == uid
  {
    hide Capable, FromByte, ToByte;
    ImfRoundTrip(v, uid, seed);
    if Capable(v, OathImf) && 0 <= seed <= 0xffff0 && seed % 16 == 0 {
      ByteOfNat(seed / 16 / 256);
      ByteOfNat(seed / 16);
    }
  }
}
