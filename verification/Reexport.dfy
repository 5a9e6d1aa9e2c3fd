/** When the configuration that an import of an export leaves exports the same mode and options again. */
module Reexport {
  import opened Bits
  import opened YkConfig
  import opened JsonConfig

  /** The octet of flags that a table describes. */
  function Of(f: Flags, t: Table): byte {
    match t
    case TicketFlags => f.tkt
    case ConfigFlags => f.cfg
    case ExtendedFlags => f.ext
  }

  /** The row is exported in this mode. */
  predicate Exported(t: Table, j: nat, mode: byte)
    requires j < Size(t)
  {
    Row(t, j).name.Some? && Applies(Row(t, j), mode)
  }

  /** The firmware can have the flag, or it is the bit of eight digits, which the mode itself brings back. */
  predicate Settable(t: Table, j: nat, mode: byte, v: Firmware)
    requires j < Size(t)
  {
    || Capable(v, Row(t, j).capability)
    || (t == ConfigFlags && mode == MODE_OATH_HOTP && Row(t, j).flag == CFGFLAG_OATH_HOTP8)
  }

  /** Every flag that is set and exported can be set. */
  predicate FlagsSettable(v: Firmware, f: Flags) {
    forall t, j :: 0 <= j < Size(t) && Exported(t, j, Mode(f)) && Has(Of(f, t), Row(t, j).flag) ==>
      Settable(t, j, Mode(f), v)
  }

  /** The moving factor is stored by the import, or was there before. */
  predicate SeedSettable(v: Firmware, mode: byte, uid: seq<byte>, uid': seq<byte>)
    requires |uid| == 6 && |uid'| == 6
  {
    mode == MODE_OATH_HOTP ==> Capable(v, OathImf) || (uid'[4] == uid[4] && uid'[5] == uid[5])
  }

  // ---------- one row ----------

  lemma HasUnion(a: byte, b: byte, flag: byte)
    requires SingleBit(flag)
    ensures Has(Union(a, b), flag) == (Has(a, flag) || Has(b, flag))
  {
  }

  lemma HasMasked(a: byte, m: byte, flag: byte)
    requires SingleBit(flag)
    ensures Has(Masked(a, m), flag) == (Has(a, flag) && Has(m, flag))
  {
  }

  lemma TicketMaskHas(mode: byte, v: Firmware, j: nat)
    requires IsMode(mode) && j < 9 && Exported(TicketFlags, j, mode)
    ensures Has(TicketMask(mode, v), TicketRow(j).flag) == Capable(v, TicketRow(j).capability)
  {
    assert Capable(v, TicketMods);
    hide Capable;
  }

  lemma ConfigMaskHas(mode: byte, v: Firmware, j: nat)
    requires IsMode(mode) && j < 18 && Exported(ConfigFlags, j, mode)
    ensures Has(ConfigMask(mode, v), ConfigRow(j).flag) == Capable(v, ConfigRow(j).capability)
  {
    assert Capable(v, TicketMods);
    hide Capable;
  }

  lemma ExtendedMaskHas(mode: byte, v: Firmware, j: nat)
    requires j < 8
    ensures Has(ExtendedMask(v), ExtendedRow(j).flag) == Capable(v, ExtendedRow(j).capability)
  {
    SameCapabilities(v);
    hide Capable;
  }

  /** The flags that the import of f's export gets from the mode alone. */
  function ModeFlags(v: Firmware, f: Flags): Flags {
    SetMode(v, CLEARED, Mode(f), map[OathDigits := JInt(if Has(f.cfg, CFGFLAG_OATH_HOTP8) then 8 else 6)])
  }

  lemma RestoredIs(v: Firmware, f: Flags, t: Table)
    ensures Of(Restored(v, f), t) == Union(Of(ModeFlags(v, f), t), Masked(Of(f, t), TableMask(t, Mode(f), v)))
  {
    hide Mode, SetMode, TicketMask, ConfigMask, ExtendedMask, Union, Masked, Has;
  }

  function TableMask(t: Table, mode: byte, v: Firmware): byte {
    match t
    case TicketFlags => TicketMask(mode, v)
    case ConfigFlags => ConfigMask(mode, v)
    case ExtendedFlags => ExtendedMask(v)
  }

  lemma MaskHas(t: Table, mode: byte, v: Firmware, j: nat)
    requires IsMode(mode) && j < Size(t) && Exported(t, j, mode)
    ensures Has(TableMask(t, mode, v), Row(t, j).flag) == Capable(v, Row(t, j).capability)
  {
    hide Has, TicketMask, ConfigMask, ExtendedMask, TicketRow, ConfigRow, ExtendedRow, Applies, Capable;
    match t
    case TicketFlags => TicketMaskHas(mode, v, j);
    case ConfigFlags => ConfigMaskHas(mode, v, j);
    case ExtendedFlags => ExtendedMaskHas(mode, v, j);
  }

  /** What the mode itself sets is no exported flag, except the bit of eight digits and the static mode's own. */
  lemma ModeSetsRow(v: Firmware, f: Flags, t: Table, j: nat)
    requires j < Size(t) && Exported(t, j, Mode(f))
    ensures Has(Of(ModeFlags(v, f), t), Row(t, j).flag) ==>
      Has(Of(f, t), Row(t, j).flag) && Settable(t, j, Mode(f), v)
  {
    hide Capable;
  }

  lemma ModeSetsDigits(v: Firmware, f: Flags)
    requires ModeCapable(v, Mode(f)) && Mode(f) == MODE_OATH_HOTP
    ensures Has(ModeFlags(v, f).cfg, CFGFLAG_OATH_HOTP8) == Has(f.cfg, CFGFLAG_OATH_HOTP8)
  {
    hide Capable;
  }

  /** An exported flag comes back exactly when it can be set. */
  lemma RowComesBack(v: Firmware, f: Flags, t: Table, j: nat)
    requires ModeCapable(v, Mode(f)) && j < Size(t) && Exported(t, j, Mode(f))
    ensures Has(Of(Restored(v, f), t), Row(t, j).flag) == (Has(Of(f, t), Row(t, j).flag) && Settable(t, j, Mode(f), v))
  {
    hide Has, Of, Mode, Applies, Row, Size, Restored, ModeFlags, Union, Masked, Capable, TableMask, SingleBit, Where;
    var flag := Row(t, j).flag;
    RestoredIs(v, f, t);
    NamesAreUnique(t, j);
    HasUnion(Of(ModeFlags(v, f), t), Masked(Of(f, t), TableMask(t, Mode(f), v)), flag);
    HasMasked(Of(f, t), TableMask(t, Mode(f), v), flag);
    MaskHas(t, Mode(f), v, j);
    ModeSetsRow(v, f, t, j);
    if t == ConfigFlags && Mode(f) == MODE_OATH_HOTP && flag == CFGFLAG_OATH_HOTP8 {
      ModeSetsDigits(v, f);
      OfConfig(f);
      OfConfig(ModeFlags(v, f));
    }
  }

  lemma OfConfig(f: Flags)
    ensures Of(f, ConfigFlags) == f.cfg
  {
  }

  /** So do the digits, which the document also holds as a number. */
  lemma DigitsComeBack(v: Firmware, f: Flags)
    requires ModeCapable(v, Mode(f)) && Mode(f) == MODE_OATH_HOTP
    ensures Has(Restored(v, f).cfg, CFGFLAG_OATH_HOTP8) == Has(f.cfg, CFGFLAG_OATH_HOTP8)
  {
    ModeSetsDigits(v, f);
    hide Has, Mode, Restored, ModeFlags, Union, Masked, Capable, TableMask;
    RestoredIs(v, f, ConfigFlags);
    HasUnion(ModeFlags(v, f).cfg, Masked(f.cfg, TableMask(ConfigFlags, Mode(f), v)), CFGFLAG_OATH_HOTP8);
    HasMasked(f.cfg, TableMask(ConfigFlags, Mode(f), v), CFGFLAG_OATH_HOTP8);
  }

  // ---------- the options ----------

  lemma {:induction false} RecordedSame(t: Table, mode: byte, flags: byte, flags': byte, i: nat, m: Options)
    requires i <= Size(t)
    requires forall j :: 0 <= j < i && Exported(t, j, mode) ==>
      Has(flags, Row(t, j).flag) == Has(flags', Row(t, j).flag)
    ensures Recorded(t, mode, flags, i, m) == Recorded(t, mode, flags', i, m)
  {
    hide Has, Applies, Row, Size;
    if i > 0 {
      RecordedSame(t, mode, flags, flags', i - 1, m);
      assert Exported(t, i - 1, mode) == (Row(t, i - 1).name.Some? && Applies(Row(t, i - 1), mode));
    }
  }

  lemma TableSame(v: Firmware, f: Flags, t: Table, m: Options)
    requires ModeCapable(v, Mode(f)) && FlagsSettable(v, f)
    ensures Recorded(t, Mode(f), Of(Restored(v, f), t), Size(t), m) == Recorded(t, Mode(f), Of(f, t), Size(t), m)
  {
    hide Has, Of, Mode, Row, Size, Restored, Exported, Settable, ModeCapable, Recorded;
    forall j | 0 <= j < Size(t) && Exported(t, j, Mode(f))
      ensures Has(Of(Restored(v, f), t), Row(t, j).flag) == Has(Of(f, t), Row(t, j).flag)
    {
      RowComesBack(v, f, t, j);
    }
    RecordedSame(t, Mode(f), Of(Restored(v, f), t), Of(f, t), Size(t), m);
  }

  lemma OptionsSame(v: Firmware, f: Flags, uid: seq<byte>)
    requires |uid| == 6 && ModeCapable(v, Mode(f)) && FlagsSettable(v, f)
    ensures ExportOptions(Restored(v, f), uid) == ExportOptions(f, uid)
  {
    hide Mode, Restored, ModeCapable, FlagsSettable, Size, Recorded, Has, FixedSeed;
    var mode, r := Mode(f), Restored(v, f);
    ModeSurvivesExactlyWhen(v, f);
    if mode == MODE_OATH_HOTP {
      DigitsComeBack(v, f);
    }
    var m0 := if mode == MODE_OATH_HOTP then OathOptions(f.cfg, uid) else map[];
    TableSame(v, f, TicketFlags, m0);
    var m1 := Recorded(TicketFlags, mode, f.tkt, Size(TicketFlags), m0);
    TableSame(v, f, ConfigFlags, m1);
    var m2 := Recorded(ConfigFlags, mode, f.cfg, Size(ConfigFlags), m1);
    TableSame(v, f, ExtendedFlags, m2);
  }

  /** An exported flag that cannot be set shows in the options. */
  lemma OptionsDiffer(v: Firmware, f: Flags, uid: seq<byte>, uid': seq<byte>, t: Table, j: nat)
    requires |uid| == 6 && |uid'| == 6 && ModeCapable(v, Mode(f)) && j < Size(t) && Exported(t, j, Mode(f))
    requires Has(Of(f, t), Row(t, j).flag) && !Settable(t, j, Mode(f), v)
    ensures ExportOptions(Restored(v, f), uid') != ExportOptions(f, uid)
  {
    hide Mode, Restored, ModeCapable, Size, Has, Row, Applies, ExportOptions, OathOptions, Extends, Settable;
    RowComesBack(v, f, t, j);
    ModeSurvivesExactlyWhen(v, f);
    OptionsRecord(f, uid);
    OptionsRecord(Restored(v, f), uid');
  }

  lemma SeedsSame(f: Flags, uid: seq<byte>, uid': seq<byte>)
    requires |uid| == 6 && |uid'| == 6 && (Mode(f) == MODE_OATH_HOTP ==> uid[4] == uid'[4] && uid[5] == uid'[5])
    ensures ExportOptions(f, uid) == ExportOptions(f, uid')
  {
    hide Mode, Recorded, Has, Size;
  }

  /** Exports of the same options in OATH mode with a fixed seed have the same moving factor. */
  lemma SeedShows(f: Flags, g: Flags, uid: seq<byte>, uid': seq<byte>)
    requires |uid| == 6 && |uid'| == 6 && Mode(f) == MODE_OATH_HOTP == Mode(g) && FixedSeed(uid)
    requires ExportOptions(f, uid) == ExportOptions(g, uid')
    ensures uid'[4] == uid[4] && uid'[5] == uid[5]
  {
    var m := ExportOptions(f, uid);
    hide Mode, Has, Size, Recorded, ExportOptions, Records, Extends, OathOptions;
    OptionsRecord(f, uid);
    OptionsRecord(g, uid');
    OathOptionsAre(f.cfg, uid, m);
    OathOptionsAre(g.cfg, uid', m);
  }

  /** The flags that come back, with a moving factor, export the same if and only if all of f's can be set and the
      moving factor is the same. */
  lemma RestoredSameExactlyWhen(v: Firmware, f: Flags, uid: seq<byte>, uid': seq<byte>)
    requires |uid| == 6 && |uid'| == 6 && (Mode(f) == MODE_OATH_HOTP ==> FixedSeed(uid))
    ensures
      (Mode(Restored(v, f)) == Mode(f) && ExportOptions(Restored(v, f), uid') == ExportOptions(f, uid))
      <==> (ModeCapable(v, Mode(f)) && FlagsSettable(v, f)
            && (Mode(f) == MODE_OATH_HOTP ==> uid'[4] == uid[4] && uid'[5] == uid[5]))
  {
    hide Mode, ExportOptions, Restored, ModeCapable, FixedSeed, Of, Size, Settable, Exported, Has;
    ModeSurvivesExactlyWhen(v, f);
    if ModeCapable(v, Mode(f)) {
      if !FlagsSettable(v, f) {
        var t, j :| 0 <= j < Size(t) && Exported(t, j, Mode(f)) && Has(Of(f, t), Row(t, j).flag)
          && !Settable(t, j, Mode(f), v);
        OptionsDiffer(v, f, uid, uid', t, j);
      } else if Mode(f) == MODE_OATH_HOTP ==> uid'[4] == uid[4] && uid'[5] == uid[5] {
        OptionsSame(v, f, uid);
        SeedsSame(Restored(v, f), uid, uid');
      } else if ExportOptions(Restored(v, f), uid') == ExportOptions(f, uid) {
        SeedShows(f, Restored(v, f), uid, uid');
      }
    }
  }

  /** For every firmware and every flags: the configuration that an accepted import of an export leaves shows the same
      mode and exports the same options if and only if the firmware can have the mode, every exported flag that is set,
      and the moving factor, unless that was there before. */
  lemma SameExactlyWhen(v: Firmware, command: nat, accCodeType: nat, f: Flags, uid: seq<byte>, command': nat,
      uid': seq<byte>)
    requires |uid| == 6 && |uid'| == 6
    requires
      ImportDocument(v, command', CLEARED, uid', Some(ExportDocument(command, accCodeType, f, uid))).error.None?
    ensures
      var doc := ExportDocument(command, accCodeType, f, uid);
      var r := ImportDocument(v, command', CLEARED, uid', Some(doc));
      |r.uid| == 6
      && ((Mode(r.flags) == Mode(f) && Some(ExportOptions(r.flags, r.uid)) == doc.options)
          <==> ModeCapable(v, Mode(f)) && FlagsSettable(v, f) && SeedSettable(v, Mode(f), uid, uid'))
  {
    hide Mode, ExportOptions, Restored, ModeCapable, Capable, FixedSeed, ModeText, CommandAllowed, ImportDocument,
         FlagsSettable, Retargeted;
    ExportThenImport(v, command, accCodeType, f, uid, command', uid');
    ImportKeepsLength(v, command', CLEARED, uid', Some(ExportDocument(command, accCodeType, f, uid)));
    var r := ImportDocument(v, command', CLEARED, uid', Some(ExportDocument(command, accCodeType, f, uid)));
    RestoredSameExactlyWhen(v, f, uid, r.uid);
  }

  lemma ImportKeepsLength(v: Firmware, command: nat, f: Flags, uid: seq<byte>, doc: Option<Document>)
    requires |uid| == 6
    ensures |ImportDocument(v, command, f, uid, doc).uid| == 6
  {
    hide SetImf, SetMode, SetOptions, ModeOf, TargetCommand;
  }

  /** A key of version 1.3 with the flag that protects the second slot loses it. */
  lemma ProtectionIsLost(uid: seq<byte>, uid': seq<byte>)
    requires |uid| == 6 && |uid'| == 6
    ensures
      var v, f := Firmware(1, 3, 0), Flags(TKTFLAG_PROTECT_CFG2, 0, 0);
      var doc := ExportDocument(SLOT_CONFIG, 0, f, uid);
      var r := ImportDocument(v, 0, CLEARED, uid', Some(doc));
      r.error.None? && |r.uid| == 6 && !(Mode(r.flags) == Mode(f) && Some(ExportOptions(r.flags, r.uid)) == doc.options)
  {
    var v, f := Firmware(1, 3, 0), Flags(TKTFLAG_PROTECT_CFG2, 0, 0);
    assert Mode(f) == MODE_OTP_YUBICO;
    ProtectionIsExported();
    assert !FlagsSettable(v, f);
    hide Mode, ImportDocument, ExportOptions, FlagsSettable, ModeText;
    ExportThenImport(v, SLOT_CONFIG, 0, f, uid, 0, uid');
    SameExactlyWhen(v, SLOT_CONFIG, 0, f, uid, 0, uid');
  }

  lemma ProtectionIsExported()
    ensures Exported(TicketFlags, 6, MODE_OTP_YUBICO) && Row(TicketFlags, 6).flag == TKTFLAG_PROTECT_CFG2
    ensures !Settable(TicketFlags, 6, MODE_OTP_YUBICO, Firmware(1, 3, 0))
  {
  }

  /** So with all capabilities every accepted import exports the same again, although flags of different modes share
      bits. */
  lemma SameWhenCapable(v: Firmware, command: nat, accCodeType: nat, f: Flags, uid: seq<byte>, command': nat,
      uid': seq<byte>)
    requires AllCapable(v) && |uid| == 6 && |uid'| == 6
    requires
      ImportDocument(v, command', CLEARED, uid', Some(ExportDocument(command, accCodeType, f, uid))).error.None?
    ensures
      var doc := ExportDocument(command, accCodeType, f, uid);
      var r := ImportDocument(v, command', CLEARED, uid', Some(doc));
      |r.uid| == 6 && Mode(r.flags) == Mode(f) && Some(ExportOptions(r.flags, r.uid)) == doc.options
  {
    hide Mode, ExportOptions, Restored, ImportDocument, ExportDocument, Of, Size, Exported, Has, AllCapable;
    AllCapableHas(v);
    forall t, j | 0 <= j < Size(t) && Exported(t, j, Mode(f)) && Has(Of(f, t), Row(t, j).flag)
      ensures Settable(t, j, Mode(f), v)
    {
      ExportedIsCapable(t, j, Mode(f), v);
    }
    hide Capable;
    SameExactlyWhen(v, command, accCodeType, f, uid, command', uid');
  }

  lemma ExportedIsCapable(t: Table, j: nat, mode: byte, v: Firmware)
    requires AllCapable(v) && j < Size(t) && Exported(t, j, mode)
    ensures Settable(t, j, mode, v)
  {
    hide Applies;
  }
}
