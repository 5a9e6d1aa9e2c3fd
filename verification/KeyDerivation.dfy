/** ykp_AES_key_from_passphrase of ykpers.c: PBKDF2 with HMAC-SHA1 and 1024 iterations, stored in the configuration. */
module KeyDerivation {
  import opened Bits
  import opened CStrings
  import opened Fips180
  import opened Hmac
  import opened JsonConfig
  import opened Pbkdf2
  import opened YkConfig

  const ITERATIONS: nat := 1024

  /** ykp_get_supported_key_length: 20 octets for OATH-HOTP and for HMAC-SHA1 challenge-response. */
  function KeyLength(tktFlags: byte, cfgFlags: byte): (n: nat)
    ensures n == 16 || n == 20
  {
    if (Has(tktFlags, TKTFLAG_OATH_HOTP) && !Has(cfgFlags, CFGFLAG_CHAL_YUBICO))
      || (Has(tktFlags, TKTFLAG_CHAL_RESP) && Has(cfgFlags, CFGFLAG_CHAL_HMAC))
    then 20 else 16
  }

  /** The flag bits are shared, but the key length is 20 exactly in the two modes that keep four key octets in uid. */
  lemma KeyLengthModes(f: Flags)
    ensures KeyLength(f.tkt, f.cfg) == 20 <==> Mode(f) == MODE_OATH_HOTP || Mode(f) == MODE_CHAL_HMAC
  {
  }

  function FirstEight(s: seq<byte>): (r: seq<byte>)
    ensures |r| <= 8
  {
    if |s| > 8 then s[..8] else s
  }

  /** The salt in use: at most eight octets of the caller's string, or the random device's eight. */
  function Salt(salt: Option<seq<byte>>, random: Option<seq<byte>>): (r: seq<byte>)
    ensures |r| <= 8
  {
    match salt
    case Some(s) => FirstEight(CString(s, 0))
    case None => if random.Some? then FirstEight(random.value) else []
  }

  /** Whole when there is none of eight octets. */
  lemma SaltIs(salt: Option<seq<byte>>, random: Option<seq<byte>>)
    ensures
      var given := if salt.Some? then CString(salt.value, 0) else if random.Some? then random.value else [];
      Salt(salt, random) <= given && |Salt(salt, random)| == if |given| < 8 then |given| else 8
  {
    hide CString;
  }

  const HMAC_SHA1: Prf := Prf(20, HmacSha1)

  /** The pseudo-random function is HMAC-SHA1 with the key as its key and the text as its text. */
  lemma PrfIsHmac(key: seq<byte>, text: seq<byte>, n: nat)
    requires |key| <= INT_MAX && |text| <= INT_MAX
    ensures HMAC_SHA1.outputSize == 20 && 8 * |key| < Pow2(LengthField(SHA1))
    ensures 8 * (BlockSize(SHA1) + |text|) < Pow2(LengthField(SHA1))
    ensures HMAC_SHA1.fn(key, text, n) == if n >= 20 then Some(Mac(SHA1, key, text, [])) else None
  {
    LengthFits(SHA1);
    hide Mac, Pow2;
  }

  lemma HmacConforms(key: seq<byte>)
    requires |key| <= INT_MAX
    ensures Conforms(HMAC_SHA1, key)
  {
    hide HmacSha1;
  }

  lemma HmacAlwaysSucceeds(key: seq<byte>, salt: seq<byte>, c: nat, l: nat)
    requires |key| <= INT_MAX && |salt| + 4 <= BLOCK && Conforms(HMAC_SHA1, key)
    ensures AllSucceed(HMAC_SHA1, key, salt, c, l)
  {
    hide HmacSha1, Text, Conforms;
    forall b, j | 1 <= b <= l && 1 <= j <= c
      ensures Succeeds(HMAC_SHA1, key, Text(HMAC_SHA1, key, salt, b, j))
    {
      assert HmacSha1(key, Text(HMAC_SHA1, key, salt, b, j), BLOCK).Some?;
    }
  }

  /** With 1024 iterations the derivation cannot fail and no stale octet shows. */
  lemma DerivesStandardKey(key: seq<byte>, salt: seq<byte>, n: nat, junk: seq<seq<byte>>)
    requires |key| <= INT_MAX && Conforms(HMAC_SHA1, key) && |salt| <= 8 && n <= 20
    ensures |salt| + 4 <= BLOCK
    ensures AllSucceed(HMAC_SHA1, key, salt, ITERATIONS, NumBlocks(20, n))
    ensures JunkOk(junk) && |junk| == NumBlocks(20, n) ==>
      Derived(HMAC_SHA1, key, salt, ITERATIONS, n, junk) == Rfc8018(HMAC_SHA1, key, salt, ITERATIONS, n)
  {
    hide HmacSha1, Conforms, Rfc8018, Derived, NumBlocks, AllSucceed, JunkOk;
    HmacAlwaysSucceeds(key, salt, ITERATIONS, NumBlocks(20, n));
    if JunkOk(junk) && |junk| == NumBlocks(20, n) {
      KeyIsStandard(HMAC_SHA1, key, salt, ITERATIONS, n, junk);
    }
  }

  /** The call of yk_pbkdf2: the standard's key, at the start of the buffer. */
  method DeriveKey(passphrase: seq<byte>, salt: seq<byte>, buf: array<byte>, n: nat) returns (ok: bool)
    requires |CString(passphrase, 0)| <= INT_MAX && |salt| <= 8 && n <= 20 && n <= buf.Length
    modifies buf
    ensures ok && Conforms(HMAC_SHA1, CString(passphrase, 0))
    ensures buf[..n] == Rfc8018(HMAC_SHA1, CString(passphrase, 0), salt, ITERATIONS, n)
  {
    hide HmacSha1, CString, Conforms, Rfc8018, Derived, NumBlocks, AllSucceed, JunkOk;
    ghost var key := CString(passphrase, 0);
    HmacConforms(key);
    ghost var junk;
    DerivesStandardKey(key, salt, n, []);
    ok, junk := ComputeKey(HMAC_SHA1, passphrase, salt, ITERATIONS, buf, n);
    DerivesStandardKey(key, salt, n, junk);
    assert buf[..n] == Derived(HMAC_SHA1, key, salt, ITERATIONS, n, junk);
  }

  /** Fails exactly when there is no salt.  Otherwise the key and, for 20-octet keys, four uid octets are the standard's
      derived key, and nothing else changes. */
  method KeyFromPassphrase(cfg: Config, passphrase: seq<byte>, salt: Option<seq<byte>>, random: Option<seq<byte>>)
    returns (ok: bool)
    requires cfg.Valid() && |CString(passphrase, 0)| <= INT_MAX
    modifies cfg`key, cfg`uid
    ensures cfg.Valid() && ok == (Salt(salt, random) != [])
    ensures Conforms(HMAC_SHA1, CString(passphrase, 0))
    ensures ok ==>
      var n := KeyLength(cfg.tktFlags, cfg.cfgFlags);
      var dk := Rfc8018(HMAC_SHA1, CString(passphrase, 0), Salt(salt, random), 1024, n);
      cfg.key == dk[..16] && cfg.uid == dk[16..] + old(cfg.uid[n - 16..])
    ensures !ok ==> cfg.key == old(cfg.key) && cfg.uid == old(cfg.uid)
  {
    hide CString, HmacSha1, Conforms, Rfc8018, Salt, KeyLength;
    HmacConforms(CString(passphrase, 0));
    var buf := new byte[20];
    var keyBytes := KeyLength(cfg.tktFlags, cfg.cfgFlags);
    var theSalt := Salt(salt, random);
    if |theSalt| == 0 {
      return false;
    }
    ok := DeriveKey(passphrase, theSalt, buf, keyBytes);
    ghost var dk := buf[..keyBytes];
    if ok {
      cfg.key := buf[..16];
      assert cfg.key == dk[..16];
      if keyBytes == 20 {
        cfg.uid := buf[16..20] + cfg.uid[4..];
      }
    }
  }
}
