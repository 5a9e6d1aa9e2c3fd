/** The report protocol as the key sees it: the octets, lengths and times of ykcore/ykdef.h and ykcore/ykcore.c in
    numbers, apart from the constants and functions that the host works with. */
module KeyProtocol {
  import opened Bits
  import opened YkCore
  import opened Protocol

  // ---------- milliseconds ----------

  const STORE_TIME: nat := 1150
  const COMPUTE_TIME: nat := 1000
  const TOUCH_TIME: nat := 255000

  // ---------- the last octet of a report ----------

  predicate WriteFlag(r: Report) { r[7] & 0x80 != 0 }

  predicate PendingFlag(r: Report) { r[7] & 0x40 != 0 }

  predicate TouchFlag(r: Report) { r[7] & 0x20 != 0 }

  function Number(r: Report): (i: nat)
    ensures i < 32
  {
    (r[7] & 0x1f) as nat
  }

  predicate Abort(r: Report) { r[7] == 0x8f }

  /** The host reads the flags and numbers of a report as the key means them. */
  lemma FlagsAgree(r: Report)
    ensures Busy(r) == WriteFlag(r) && Pending(r) == PendingFlag(r) && Waiting(r) == TouchFlag(r)
    ensures SequenceOf(r) == Number(r) && (SequenceZero(r) <==> Number(r) == 0)
    ensures Meets(WRITABLE, r) == !WriteFlag(r)
    ensures forall b :: Meets(Query(b, true, RESP_PENDING_FLAG), r) == PendingFlag(r)
  {
  }

  /** The dummy report is an abort. */
  lemma DummyAborts(r: Report)
    ensures Abort(DUMMY) && (Abort(r) <==> r[7] == DUMMY[7])
  {
  }

  // ---------- the frame of a command ----------

  /** 64 octets of payload, the command, and the checksum of the payload with its low octet first. */
  lemma FrameAgrees(crc16: Crc16, payload: seq<byte>, slot: byte)
    requires |payload| <= 64
    ensures
      var f := Frame(crc16, payload, slot);
      && |f| == 70 && f[..|payload|] == payload && (forall k :: |payload| <= k < 64 ==> f[k] == 0)
      && f[64] == slot && (f[65], f[66]) == crc16(f[..64]) && f[67..] == [0, 0, 0]
  {
    var p := payload + ZeroBytes(64 - |payload|);
    assert Frame(crc16, payload, slot)[..64] == p;
  }

  /** The host sends slice i, seven octets, with the write flag and the number i. */
  lemma SliceAgrees(frame: seq<byte>, i: nat)
    requires |frame| == 70 && i < 10
    ensures
      var r := SliceReport(frame, i);
      (forall k :: 0 <= k < 7 ==> r[k] == frame[7 * i + k]) && r[7] == 0x80 + (i as byte)
  {
    FlaggedNumber(i);
    hide SequenceByte;
  }

  lemma FlaggedNumber(i: nat)
    requires i < 10
    ensures SequenceByte(i) == 0x80 + (i as byte)
  {
  }

  // ---------- commands and answers ----------

  /** Octets in the answer to a command: an HMAC-SHA1 digest or an encrypted block; nothing for any other command. */
  function AnswerLength(cmd: byte): (n: nat)
    ensures n == 0 || n == 16 || n == 20
  {
    match cmd
    case 0x30 => 20
    case 0x38 => 20
    case 0x20 => 16
    case 0x28 => 16
    case _ => 0
  }

  /** The host expects what the key sends. */
  lemma LengthsAgree(cmd: byte)
    ensures ResponseLength(cmd) == AnswerLength(cmd)
  {
  }

  /** A response of n octets with its checksum, low octet first, filled up to whole slices of seven. */
  predicate WellFormed(crc16: Crc16, wire: seq<byte>, n: nat) {
    && |wire| % 7 == 0 && n + 2 <= |wire| < n + 9
    && crc16(wire[..n + 2]) == (0xb8, 0xf0)
  }

  lemma WellFormedLength(crc16: Crc16, wire: seq<byte>, n: nat)
    requires WellFormed(crc16, wire, n)
    ensures |wire| == RoundUp7(n + 2) && crc16(wire[..n + 2]) == CRC_OK_RESIDUAL
  {
  }
}
