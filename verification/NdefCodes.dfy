/** What a stored NDEF record says, read without the tables of the program: the abbreviation codes are those of the NFC
    Forum URI record type definition 1.0, section 3.2.2. */
module NdefCodes {
  import opened Ndef
  import opened Bits

  /** The text that a code stands for; code 0 abbreviates nothing. */
  function Abbreviation(code: nat): string {
    match code
    case 0x01 => "http://www."
    case 0x02 => "https://www."
    case 0x03 => "http://"
    case 0x04 => "https://"
    case 0x05 => "tel:"
    case 0x06 => "mailto:"
    case 0x07 => "ftp://anonymous:anonymous@"
    case 0x08 => "ftp://ftp."
    case 0x09 => "ftps://"
    case 0x0a => "sftp://"
    case 0x0b => "smb://"
    case 0x0c => "nfs://"
    case 0x0d => "ftp://"
    case 0x0e => "dav://"
    case 0x0f => "news:"
    case 0x10 => "telnet://"
    case 0x11 => "imap:"
    case 0x12 => "rtsp://"
    case 0x13 => "urn:"
    case 0x14 => "pop:"
    case 0x15 => "sip:"
    case 0x16 => "sips:"
    case 0x17 => "tftp:"
    case 0x18 => "btspp://"
    case 0x19 => "btl2cap://"
    case 0x1a => "btgoep://"
    case 0x1b => "tcpobex://"
    case 0x1c => "irdaobex://"
    case 0x1d => "file://"
    case 0x1e => "urn:epc:id:"
    case 0x1f => "urn:epc:tag:"
    case 0x20 => "urn:epc:pat:"
    case 0x21 => "urn:epc:raw:"
    case 0x22 => "urn:epc:"
    case 0x23 => "urn:nfc:"
    case _ => ""
  }

  lemma AbbreviationIs(code: nat)
    requires 0x01 <= code <= 0x23
    ensures Abbreviation(code) == Identifier(code - 1)
  {
  }

  /** The first octet of a stored URI is the smallest code whose text the URI starts with, or 0 when there is none, and
      the rest follows. */
  lemma StoredUri(uri: string)
    requires EncodeUri(uri).Some?
    ensures
      var r := EncodeUri(uri).value;
      && r.kind == 'U' && |r.data| == r.len >= 1
      && var code := r.data[0] as nat;
      && code <= 0x23 && uri == Abbreviation(code) + r.data[1..]
      && forall c :: 0x01 <= c <= 0x23 && (code == 0 || c < code) ==> !(Abbreviation(c) <= uri)
  {
    hide FirstMatch, Identifier, Abbreviation;
    var k := FirstMatch(uri, 0);
    var r := EncodeUri(uri).value;
    assert r.data[1..] == Remainder(uri);
    forall c | 0x01 <= c <= 0x23
      ensures Abbreviation(c) == Identifier(c - 1)
    {
      AbbreviationIs(c);
    }
    if k == NUM_IDENTIFIERS {
      NoAbbreviation();
    }
  }

  lemma NoAbbreviation()
    ensures Abbreviation(0) == ""
  {
  }

  /** A stored text: the language behind a status octet with its length, whose top bit is clear, and then the text.  The
      code masks the length of a UTF-16 text away instead of setting the top bit, so its status octet is 0. */
  lemma StoredText(text: string, lang: string, utf16: bool)
    ensures EncodeText(text, lang, utf16).Some? <==> |text| + |lang| <= 53
    ensures EncodeText(text, lang, utf16).Some? ==>
      var r := EncodeText(text, lang, utf16).value;
      && r.kind == 'T' && |r.data| == r.len == 1 + |lang| + |text|
      && r.data[0] as nat < 0x80 && r.data[0] as nat == (if utf16 then 0 else |lang|)
      && r.data[1..1 + |lang|] == lang && r.data[1 + |lang|..] == text
  {
  }
}
