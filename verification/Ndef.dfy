/** NDEF records of ykpers.c: construction from a URI or a text, and reading one back.

    An octet is a character with a code below 256.  Identifier codes are those of the NFC Forum URI record type
    definition 1.0, section 3.2.2. */
module Ndef {
  import opened Bits
  import opened CStrings

  const NDEF_DATA_SIZE: nat := 54

  const NUM_IDENTIFIERS: nat := 35

  function Identifier(i: nat): string {
    match i
    case 0 => "http://www."
    case 1 => "https://www."
    case 2 => "http://"
    case 3 => "https://"
    case 4 => "tel:"
    case 5 => "mailto:"
    case 6 => "ftp://anonymous:anonymous@"
    case 7 => "ftp://ftp."
    case 8 => "ftps://"
    case 9 => "sftp://"
    case 10 => "smb://"
    case 11 => "nfs://"
    case 12 => "ftp://"
    case 13 => "dav://"
    case 14 => "news:"
    case 15 => "telnet://"
    case 16 => "imap:"
    case 17 => "rtsp://"
    case 18 => "urn:"
    case 19 => "pop:"
    case 20 => "sip:"
    case 21 => "sips:"
    case 22 => "tftp:"
    case 23 => "btspp://"
    case 24 => "btl2cap://"
    case 25 => "btgoep://"
    case 26 => "tcpobex://"
    case 27 => "irdaobex://"
    case 28 => "file://"
    case 29 => "urn:epc:id:"
    case 30 => "urn:epc:tag:"
    case 31 => "urn:epc:pat:"
    case 32 => "urn:epc:raw:"
    case 33 => "urn:epc:"
    case _ => "urn:nfc:"
  }

  // ---------- records ----------

  datatype Record = Record(len: nat, kind: char, data: string)

  /** The first identifier at or after i that the URI starts with, or the number of identifiers. */
  function FirstMatch(uri: string, i: nat): (k: nat)
    requires i <= NUM_IDENTIFIERS
    ensures i <= k <= NUM_IDENTIFIERS
    ensures forall j :: i <= j < k ==> !(Identifier(j) <= uri)
    ensures k < NUM_IDENTIFIERS ==> Identifier(k) <= uri
    decreases NUM_IDENTIFIERS - i
  {
    if i == NUM_IDENTIFIERS || Identifier(i) <= uri then i else FirstMatch(uri, i + 1)
  }

  function Offset(k: nat): nat
    requires k <= NUM_IDENTIFIERS
  {
    if k == NUM_IDENTIFIERS then 0 else |Identifier(k)|
  }

  /** What remains of the URI after its identifier. */
  function Remainder(uri: string): string { uri[Offset(FirstMatch(uri, 0))..] }

  function Code(uri: string): char {
    if FirstMatch(uri, 0) == NUM_IDENTIFIERS then 0 as char else (FirstMatch(uri, 0) + 1) as char
  }

  function EncodeUri(uri: string): Option<Record> {
    if |Remainder(uri)| + 1 > NDEF_DATA_SIZE then None
    else Some(Record(|Remainder(uri)| + 1, 'U', [Code(uri)] + Remainder(uri)))
  }

  function EncodeText(text: string, lang: string, utf16: bool): Option<Record> {
    if |text| + |lang| + 1 > NDEF_DATA_SIZE then None
    else
      var status := if utf16 then if |lang| >= 0x80 then 0x80 else 0 else |lang|;
      Some(Record(|text| + |lang| + 1, 'T', [status as char] + lang + text))
  }

  /** Records that can be read: the identifier code exists and the length fits the data. */
  predicate Readable(r: Record) {
    1 <= r.len <= |r.data| && r.data[0] < 256 as char && (r.kind == 'U' ==> r.data[0] <= NUM_IDENTIFIERS as char)
  }

  /** The characters of a record. */
  function Decode(r: Record): Option<string>
    requires Readable(r)
  {
    if r.kind == 'U' then
      Some((if r.data[0] > 0 as char then Identifier(r.data[0] as nat - 1) else "") + r.data[1..r.len])
    else if r.kind == 'T' then
      var status := if r.data[0] as nat >= 0x80 then r.data[0] as nat - 0x80 else r.data[0] as nat;
      if status + 1 > r.len then None else Some(r.data[status + 1..r.len])
    else None
  }

  /** A URI has a record exactly when at most 53 octets follow its identifier, and the record gives it back. */
  lemma UriRoundTrip(uri: string)
    ensures EncodeUri(uri).Some? <==> |Remainder(uri)| <= 53
    ensures EncodeUri(uri).Some? ==>
      Readable(EncodeUri(uri).value) && Decode(EncodeUri(uri).value) == Some(uri)
  {
    hide FirstMatch, Identifier;
    if EncodeUri(uri).Some? {
      var k := FirstMatch(uri, 0);
      var r := EncodeUri(uri).value;
      assert r.data[1..r.len] == Remainder(uri);
      if k == NUM_IDENTIFIERS {
        assert "" + Remainder(uri) == uri;
      } else {
        assert uri == Identifier(k) + uri[|Identifier(k)|..];
      }
    }
  }

  /** A text comes back exactly when it is not marked as UTF-16 or has no language; otherwise the language comes
      first. */
  lemma TextRoundTripExactlyWhen(text: string, lang: string, utf16: bool)
    requires |text| + |lang| + 1 <= NDEF_DATA_SIZE
    ensures EncodeText(text, lang, utf16).Some? && Readable(EncodeText(text, lang, utf16).value)
    ensures Decode(EncodeText(text, lang, utf16).value) == Some(text) <==> (!utf16 || lang == "")
    ensures utf16 ==> Decode(EncodeText(text, lang, utf16).value) == Some(lang + text)
  {
    var r := EncodeText(text, lang, utf16).value;
    if utf16 {
      assert r.data[1..r.len] == lang + text;
      if lang == "" {
        assert lang + text == text;
      } else {
        assert |lang + text| != |text|;
      }
    } else {
      assert r.data[|lang| + 1..r.len] == text;
    }
  }

  /** A URI that starts with "urn:" never gets one of the longer urn: identifiers, because "urn:" stands before them. */
  lemma UrnIsFirst(uri: string)
    requires "urn:" <= uri
    ensures FirstMatch(uri, 0) <= 18
  {
    hide FirstMatch;
    assert Identifier(18) == "urn:";
  }

  // ---------- the code ----------

  /** struct ndef_st. */
  class NdefRecord {
    var len: nat
    var kind: char
    const data: array<char>

    ghost predicate Valid()
      reads this
    {
      data.Length == NDEF_DATA_SIZE
    }

    function View(): Record
      reads this, data
    {
      Record(len, kind, data[..])
    }

    constructor ()
      ensures Valid() && View() == Record(0, '\0', seq(NDEF_DATA_SIZE, _ => '\0')) && fresh(data)
    {
      len, kind := 0, '\0';
      data := new char[NDEF_DATA_SIZE](_ => '\0');
    }

    method ConstructUri(uri: string) returns (ok: bool)
      requires Valid()
      modifies this, data
      ensures ok == EncodeUri(uri).Some?
      ensures ok ==> Holds(EncodeUri(uri).value)
      ensures !ok ==> View() == old(View())
    {
      hide FirstMatch, Identifier;
      var indx := 0;
      var rest := uri;
      FirstMatchUnfolds(uri, 0);
      while indx < NUM_IDENTIFIERS
        invariant indx <= NUM_IDENTIFIERS && rest == uri && FirstMatch(uri, indx) == FirstMatch(uri, 0)
        invariant View() == old(View())
      {
        FirstMatchUnfolds(uri, indx);
        var id := Identifier(indx);
        if id <= uri {
          rest := uri[|id|..];
          break;
        }
        indx := indx + 1;
      }
      if indx == NUM_IDENTIFIERS {
        FirstMatchUnfolds(uri, indx);
      }
      assert rest == Remainder(uri);
      if |rest| + 1 > NDEF_DATA_SIZE {
        return false;
      }
      Store(if indx == NUM_IDENTIFIERS then 0 as char else (indx + 1) as char, rest, 'U');
      ok := true;
    }

    /** The record is what the fields show; the data beyond its length is whatever was there. */
    ghost predicate Holds(r: Record)
      reads this, data
    {
      |r.data| == r.len <= data.Length && len == r.len && kind == r.kind && data[..len] == r.data
    }

    method Store(first: char, rest: string, newKind: char)
      requires Valid() && |rest| + 1 <= NDEF_DATA_SIZE
      modifies this, data
      ensures Holds(Record(|rest| + 1, newKind, [first] + rest))
    {
      data[0] := first;
      for i := 0 to |rest|
        invariant data[0] == first && forall k :: 0 <= k < i ==> data[k + 1] == rest[k]
      {
        data[i + 1] := rest[i];
      }
      len, kind := |rest| + 1, newKind;
      assert data[..len] == [first] + rest;
    }

    method ConstructText(text: string, lang: string, utf16: bool) returns (ok: bool)
      requires Valid()
      modifies this, data
      ensures ok == EncodeText(text, lang, utf16).Some?
      ensures ok ==> Holds(EncodeText(text, lang, utf16).value)
      ensures !ok ==> View() == old(View())
    {
      if |text| + |lang| + 1 > NDEF_DATA_SIZE {
        return false;
      }
      var status := |lang|;
      if utf16 {
        status := if status >= 0x80 then 0x80 else 0;
      }
      Store(status as char, lang + text, 'T');
      assert [status as char] + (lang + text) == [status as char] + lang + text;
      ok := true;
    }

    /** ykp_ndef_as_text into a buffer whose size the caller gives.  The characters go to the front; the one behind them
        stays as it was, and the terminator comes after that, which is where the buffer must still have room. */
    method AsText(text: array<char>, size: nat) returns (ok: bool)
      requires Valid() && Readable(View()) && text != data
      requires var d := Decode(View()); d.Some? && |d.value| <= size ==> |d.value| + 2 <= text.Length
      modifies text
      ensures
        var d := Decode(old(View()));
        ok == (d.Some? && |d.value| <= size)
        && (ok ==> |d.value| + 2 <= text.Length)
        && text[..] == if ok then Written(d.value, old(text[..])) else old(text[..])
    {
      hide Written, Identifier;
      ghost var d := Decode(View());
      if kind == 'U' {
        var part := "";
        if data[0] > 0 as char {
          part := Identifier(data[0] as nat - 1);
        }
        var offset := |part|;
        assert data[1..len] == data[..][1..len];
        if offset + len - 1 > size {
          return false;
        }
        Fill(text, part + data[1..len], len + offset);
        ok := true;
      } else if kind == 'T' {
        var status := data[0] as nat;
        if status >= 0x80 {
          status := status - 0x80;
        }
        if status + 1 > len || len - status - 1 > size {
          return false;
        }
        assert data[status + 1..len] == data[..][status + 1..len];
        Fill(text, data[status + 1..len], len - status);
        ok := true;
      } else {
        ok := false;
      }
    }

    lemma HoldsDecodes(r: Record)
      requires Valid() && Holds(r) && Readable(r)
      ensures Readable(View()) && Decode(View()) == Decode(r)
    {
      assert forall i, j :: 0 <= i <= j <= len ==> data[..][i..j] == data[..len][i..j];
    }

    /** A URI put into the record and read back into a buffer, with the buffer's length as its size. */
    method UriThereAndBack(uri: string, text: array<char>) returns (ok: bool)
      requires Valid() && text != data
      requires |Remainder(uri)| <= 53 && |uri| <= text.Length ==> |uri| + 2 <= text.Length
      modifies this, data, text
      ensures ok == (|Remainder(uri)| <= 53 && |uri| <= text.Length)
      ensures ok ==> text[..|uri|] == uri
    {
      hide Decode, EncodeUri, Holds, Readable;
      UriRoundTrip(uri);
      ok := ConstructUri(uri);
      if ok {
        HoldsDecodes(EncodeUri(uri).value);
        ok := AsText(text, text.Length);
      }
    }

    /** The same for a text that is not UTF-16. */
    method TextThereAndBack(s: string, lang: string, text: array<char>) returns (ok: bool)
      requires Valid() && text != data
      requires |s| + |lang| <= 53 && |s| <= text.Length ==> |s| + 2 <= text.Length
      modifies this, data, text
      ensures ok == (|s| + |lang| <= 53 && |s| <= text.Length)
      ensures ok ==> text[..|s|] == s
    {
      hide Decode, Holds, Readable;
      ok := ConstructText(s, lang, false);
      if ok {
        TextRoundTripExactlyWhen(s, lang, false);
        HoldsDecodes(EncodeText(s, lang, false).value);
        ok := AsText(text, text.Length);
      }
    }
  }

  /** The buffer after a string has been written to it: the character behind the string is left alone. */
  function Written(s: string, before: string): (after: string)
    requires |s| + 2 <= |before|
    ensures |after| == |before|
  {
    s + [before[|s|]] + ['\0'] + before[|s| + 2..]
  }

  lemma FirstMatchUnfolds(uri: string, i: nat)
    requires i <= NUM_IDENTIFIERS
    ensures i == NUM_IDENTIFIERS ==> FirstMatch(uri, i) == i
    ensures i < NUM_IDENTIFIERS ==> FirstMatch(uri, i) == if Identifier(i) <= uri then i else FirstMatch(uri, i + 1)
  {
  }

  method Fill(text: array<char>, s: string, terminator: nat)
    requires terminator == |s| + 1 < text.Length
    modifies text
    ensures text[..] == Written(s, old(text[..]))
  {
    for i := 0 to |s|
      invariant forall k :: 0 <= k < text.Length ==> text[k] == if k < i then s[k] else old(text[k])
    {
      text[i] := s[i];
    }
    text[terminator] := '\0';
    assert text[..] == Written(s, old(text[..]));
  }

  /** A C program then sees s exactly when the buffer already had a NUL behind it. */
  lemma TerminatedExactlyWhen(s: string, before: string)
    requires Clean(s) && |s| + 2 <= |before|
    ensures CString(Written(s, before), '\0') == s <==> before[|s|] == '\0'
  {
    SeenAsString(s, before[|s|], before[|s| + 2..]);
    if before[|s|] != '\0' {
      assert |s + [before[|s|]]| != |s|;
    }
  }

  lemma {:induction false} SeenAsString(s: string, after: char, rest: string)
    requires Clean(s)
    ensures CString(s + [after] + ['\0'] + rest, '\0') == if after == '\0' then s else s + [after]
  {
    var all := s + [after] + ['\0'] + rest;
    if s == "" {
      assert all == [after] + ['\0'] + rest;
      assert all[1..] == ['\0'] + rest;
      assert CString(all[1..], '\0') == [];
    } else {
      assert all[1..] == s[1..] + [after] + ['\0'] + rest;
      SeenAsString(s[1..], after, rest);
    }
  }
}
