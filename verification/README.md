# Verification of the YubiKey personalization library

A Dafny 4.11 model of the parts of the library whose behaviour spans many calls, with proofs of what they promise. Loops
over buffers and objects that are updated in place are methods and classes, each proved against a specification without
buffers, indices or loops; the theorems are about the specifications.

- **Hashing** (`Bits`, `Words`, `Fips180`, `Loading`, `Padding`, `Sha1`, `Sha256`, `Sha512`, `WordPairs`, `Sha512Words`,
  `ShaPrivate`, `ShaSession`, `ShaContexts`). `Fips180` is the standard as a function of a bit string. The class
  `ShaContext` is the streaming object of `sha1.c`, `sha224-256.c` and `sha384-512.c` behind `usha.c`, in both builds of
  SHA-384/512; every run of calls on it is proved to be a run of the sessions of `ShaSession`, which give the standard's
  digest. `Primes`, `RootConstants`, `WordBits` and `ShaShape` fix what `Fips180` says by other means: its constants by
  the roots of primes, its functions bit by bit, and its recursions by sequences of values.
- **Keys from passphrases** (`Hmac`, `Pbkdf2`, `KeyOctets`, `KeyDerivation`). HMAC against RFC 2104, PBKDF2 against RFC
  8018, whose key `KeyOctets` gives bit by bit. `yk_pbkdf2` XORs all remaining key octets in each iteration, not only
  those the function has just written, so old stack content can enter the key; it is proved exactly when it cannot.
- **The report protocol** (`YkCore`, `Protocol`, `Overruns`, `KeyProtocol`, `ConformingKeys`, `ProgrammableKeys`,
  `ReferenceKeys`). The key is an arbitrary machine that sees sleeps, reads and writes. `Protocol` and `Overruns` hold
  what is true whatever the key replies, `ConformingKeys` and `ProgrammableKeys` what a challenge and a write achieve
  with a key that follows the protocol of `KeyProtocol`, which has its own numbers, and `ReferenceKeys` that there are
  such keys.
- **Version comparison** (`VersionCompare`, `VersionOrder`, `VersionCharacters`), **JSON export and import**
  (`YkConfig`, `JsonConfig`, `FlagBits`, `JsonNames`, `Reexport`), **command-line options** (`Args`, `ArgsMeaning`,
  `Combinations`) and **NDEF records** (`CStrings`, `Ndef`, `NdefCodes`). `VersionCharacters`, `JsonNames`,
  `ArgsMeaning` and `NdefCodes` say what the results mean in characters, bits and codes, without the tables and
  transitions of the program.

Machine words are natural numbers with every wrap-around written out; octets are 8-bit vectors, or characters where the
source compares text. Where the code and its documentation differ, the model follows the code:

- A message that is too long sets `Corrupted` to 1, which is `shaNull`, not `shaInputTooLong` (`sha1.c:51-55`).
- The overflow check of the 32-bit build of SHA-384/512 fires at 2^96 bits, not 2^128 (`sha384-512.c:240-245`).
- The comment on `yk_read_response_from_key` asks for at most 7 octets more than expected (`ykcore/ykcore.c:573-575`); the
  code needs the response and checksum rounded up to sevens, and 8 octets more, and leaves some smaller buffers.
- `-m`, `-S` and `-D` are said not to combine with other options; only one order is refused (`ykpers-args.c:455-532`).
- A UTF-16 text is stored with status octet 0: the length of the language is masked away and the bit for UTF-16 is not set
  (`ykpers.c:471-474`).
- `ykp_ndef_as_text` writes its terminator one place behind the end of the text (`ykpers.c:503-504`).

## Model

| member | source | states |
|---|---|---|
| `Fips180.PadWhole` | sha384-512.c:634-697 | a padded message, as FIPS 180-2 section 5.1 pads it, is a whole number of blocks for all five hashes |
| `Primes.PrimesInOrder` | sha384-512.c:844-871 | the eighty numbers that the constants are taken from are the first eighty primes, in order and with none left out |
| `RootConstants.K512IsCubeRoot` | sha384-512.c:844-871 | the constant of round t is the first 64 bits of the fraction of the cube root of the t-th prime |
| `RootConstants.K256IsUpperHalf` | sha224-256.c:444-461 | the constants of SHA-224/256 are the upper halves of the first 64 of these |
| `RootConstants.K1IsSquareRoot` | sha1.c:357-359 | the four constants of SHA-1 are the square roots of 2, 3, 5 and 10 in fixed point, rounded down |
| `RootConstants.InitialIsSquareRoot` | sha384-512.c:308-318 | the initial hash values of SHA-512 and SHA-384 are the first 64 bits of the fractions of the square roots of primes 1 to 8 and 9 to 16 |
| `RootConstants.InitialIsHalf` | sha224-256.c:78-88 | those of SHA-256 are the upper halves of SHA-512's, those of SHA-224 the lower halves of SHA-384's |
| `RootConstants.InitialCounts` | sha1.c:87-91 | read low octet first, the initial words of SHA-1 count the hexadecimal digits: two words up, two down, and one that does both in turn |
| `RootConstants.CubeRootBitsUnique` | sha384-512.c:844-871 | a prime has only one such constant |
| `RootConstants.SquareRootBitsUnique` | sha384-512.c:308-318 | and only one such initial value |
| `ShaShape.SizesAre` | sha.h:58-72 | digest, block, word and length field of the five hashes in bits, and what the sizes have to do with each other |
| `ShaShape.PadIs` | sha384-512.c:634-697 | a padded message is the message, a one, zeros, and the length in the last two words, in as few whole blocks as hold them |
| `ShaShape.WordsOfBlock` | sha224-256.c:467-471 | word i of a block is the big-endian number of its own four or eight octets |
| `ShaShape.FourOctets` | sha224-256.c:467-471 | four octets as a big-endian number |
| `ShaShape.EightOctets` | sha384-512.c:881-890 | eight octets as the two numbers of their halves |
| `ShaShape.Compress1Is` | sha1.c:378-425 | for any 81 states each of which is one round from the last: SHA-1 adds the last state to the hash value word by word |
| `ShaShape.Compress2Is` | sha224-256.c:478-508 | the same for 64 rounds of SHA-224/256 and 80 of SHA-384/512 |
| `ShaShape.ChainIs` | sha1.c:119-148 | for any hash values that begin with the initial one and each come from the last and the next block: hashing whole blocks ends in the last of them |
| `WordBits.Round1Is` | sha1.c:383-424 | a round of SHA-1 in terms of bits: which bit of the state each bit of the rotations and of the round's function depends on, the sum modulo 2^32, and where the other words go |
| `WordBits.Schedule1Is` | sha1.c:374-375 | the first sixteen schedule words of SHA-1 are the block's; each bit of a later one is the parity of the neighbouring bits of four earlier words |
| `WordBits.Round2Is` | sha224-256.c:486-497 | a round of SHA-224 to SHA-512: choice and majority by bits, the two sums, and where the other words go |
| `WordBits.Schedule2Is` | sha224-256.c:473-476 | the first sixteen schedule words are the block's, the others the sum of four earlier ones |
| `WordBits.BigSigma0Bit` | sha224-256.c:49-56 | each bit is the parity of three bits of the argument, by their distance, for both widths |
| `WordBits.BigSigma1Bit` | sha224-256.c:49-56 | the same for the second function |
| `WordBits.SmallSigma0Bit` | sha224-256.c:49-56 | the same for the schedule's first function, whose shift brings in zeros |
| `WordBits.SmallSigma1Bit` | sha224-256.c:49-56 | the same for the schedule's second function |
| `Padding.PadOctetsCorrect` | sha384-512.c:634-697 | for octets followed by 0 to 7 bits, the octets the pad functions append (pad octet, zeros in this block or the next, length field) are exactly the octets of the bit-level padding of FIPS 180-2 |
| `Padding.MaskMarkIsPadByte` | sha1.c:169-204 | masking and marking an octet keeps its r leading bits, appends one 1 bit and zeros |
| `Loading.Load32Value` | sha1.c:354-426 | the shifts and ORs that load a word read four octets big-endian |
| `Loading.Load64Value` | sha384-512.c:881-890 | the shifts and ORs that load a word read eight octets big-endian |
| `Sha1.ProcessMessageBlock` | sha1.c:354-426 | the imperative schedule and the four round loops compute the one-shot compression function of FIPS 180-2 section 6.1.2 |
| `Sha256.ProcessMessageBlock` | sha224-256.c:441-509 | the loops over W and A..H compute the compression function of FIPS 180-2 section 6.2.2 |
| `Sha512.ProcessMessageBlock` | sha384-512.c:843-925 | the 64-bit build computes the compression function of FIPS 180-2 section 6.3.2 |
| `Sha512Words.ProcessMessageBlock` | sha384-512.c:720-841 | the build with pairs of 32-bit words computes the same compression function, for every chaining value and block |
| `Sha512Words.RoundPair` | sha384-512.c:808-831 | one round on word pairs is one round on the 64-bit values they stand for |
| `Sha512Words.SchedulePair` | sha384-512.c:777-788 | one schedule word on word pairs is the 64-bit schedule word |
| `Sha512Words.KPairValue` | sha384-512.c:724-757 | the table of 160 32-bit constants holds the 80 64-bit constants of FIPS 180-2 section 4.2.3 |
| `Sha512Words.InitialPairs` | sha384-512.c:257-270 | the 32-bit initial values are the halves of the 64-bit ones |
| `WordPairs.RotrPair` | sha384-512.c:135-139 | SHA512_ROTR, built from two shifts and an OR, rotates the 64-bit value for every distance that is used |
| `WordPairs.ShrValue` | sha384-512.c:55-63 | SHA512_SHR shifts the 64-bit value for distances below 32 |
| `WordPairs.AddValue` | sha384-512.c:106-108 | SHA512_ADD with its carry test adds modulo 2^64 |
| `WordPairs.BigSigma0Value` | sha384-512.c:147-152 | SHA512_SIGMA0 on pairs is the function of FIPS 180-2 on the 64-bit value |
| `WordPairs.BigSigma1Value` | sha384-512.c:159-164 | the same for SHA512_SIGMA1 |
| `WordPairs.SmallSigma0Value` | sha384-512.c:171-176 | the same for SHA512_sigma0 |
| `WordPairs.SmallSigma1Value` | sha384-512.c:183-188 | the same for SHA512_sigma1 |
| `WordPairs.ChValue` | sha384-512.c:199-203 | SHA_Ch on pairs is Ch on the 64-bit values |
| `WordPairs.MajValue` | sha384-512.c:209-214 | SHA_Maj on pairs is Maj on the 64-bit values |
| `ShaPrivate.ChForms` | sha-private.h:14-22 | both forms of SHA_Ch are the same function, for words of any width |
| `ShaPrivate.MajForms` | sha-private.h:15-23 | both forms of SHA_Maj are the same function |
| `ShaContexts.AppendOctet` | sha1.c:136-145 | one more octet either grows the partial block or completes it, and then the chaining value of the whole blocks takes one compression |
| `ShaContexts.ChainAll` | sha1.c:301-334 | compressing partial block and padding, one block or two, is chaining over the whole padded message |
| `ShaContexts.FinalizeChain` | sha224-256.c:350-420 | whole blocks already compressed, then rest and padding, give the chaining value of the padded bit string |
| `ShaContexts.DigestOctet` | sha224-256.c:585-588 | octet i of the digest is the shifted word the result loop stores |
| `ShaContexts.ShaContext.AddLength` | sha384-512.c:239-245 | the length macros of all builds count bits exactly and set Corrupted on exactly the addition that reaches the limit: 2^64, 2^128, or 2^96 in the 32-bit build of SHA-384/512 |
| `ShaContexts.ShaContext.AddToFour` | sha384-512.c:113-121 | SHA512_ADDTO4 adds over four words; the overflow check behind it fires on exactly the addition that reaches 2^96 |
| `ShaContexts.ShaContext.AddToTwo` | sha224-256.c:61-65 | the two-word counter carries exactly |
| `ShaContexts.ShaContext.PadMessage` | sha384-512.c:634-697 | pads the partial block in one block or two, stores the length, and compresses: the chaining value of rest and padding |
| `ShaContexts.ShaContext.Reset` | usha.c:27-42 | an empty message and the initial hash value of the chosen hash; also ends a broken state |
| `ShaContexts.ShaContext.InputOctet` | sha1.c:136-145 | one turn of the input loop absorbs one octet: index, counter, block and chaining value stay in step |
| `ShaContexts.ShaContext.Input` | sha384-512.c:458-488 | absorbs the octets, or reports the state error or the overflow, exactly as the session says; the index stays the number of octets modulo the block size |
| `ShaContexts.ShaContext.InStep` | sha1.c:136-145 | in every valid open context the index is below the block size and equal to octets modulo block size, and the length words equal the bits absorbed |
| `ShaContexts.ShaContext.FinalBits` | sha384-512.c:510-545 | 1 to 7 bits end the message; 8 or more, or a second end, break the context |
| `ShaContexts.ShaContext.Finalize` | sha384-512.c:566-582 | the context then holds the final chaining value of octets and bits |
| `ShaContexts.ShaContext.Result` | sha384-512.c:1000-1036 | stores the FIPS 180-2 digest of all bits absorbed, in either build, computed on the first call only |
| `ShaSession.SplitIndependent` | sha1.c:119-148 | whatever was called before a Reset: however a message is cut into pieces, the session is the same, and it breaks exactly when the whole message is too long for the hash and the build |
| `ShaSession.StreamingDigest` | usha.c:27-173 | whatever was called before, Reset to any of the five hashes, any pieces, Result: the FIPS 180-2 digest of the concatenation, or the overflow code |
| `ShaContexts.Execute` | usha.c:27-173 | any run of calls on the streaming object, in either build, with Resets that may choose another hash each time, ends in the hash, state, last code and last digest of the run of its session |
| `ShaContexts.HashPieces` | usha.c:27-173 | a fresh object given any pieces of a message: the FIPS 180-2 digest of the concatenation, or the overflow code and no digest |
| `ShaSession.StreamingBitsDigest` | usha.c:108-173 | with 1 to 7 final bits: the digest of the bit string that octets and bits denote |
| `ShaSession.BrokenUntilReset` | sha1.c:119-244 | in every run of calls a broken context stays broken until a Reset, to any hash |
| `ShaSession.ResultRepeats` | sha1.c:225-244 | any number of further Results give the same digest and code |
| `ShaSession.BuildsAgree` | sha384-512.c:239-296 | the 32-bit and the 64-bit build answer every sequence of pieces alike exactly when the message is below 2^96 bits or at least 2^128; in between only the 32-bit build reports an error |
| `Hmac.HmacContext.Reset` | hmac.c:69-129 | short, block-sized and longer keys give the key block of RFC 2104; the inner hash has absorbed its XOR with ipad and the outer block is stored |
| `Hmac.HmacContext.Input` | hmac.c:151-157 | the inner hash absorbs the text whatever state it is in, a null pointer included; a keyed context goes on as a session of the text alone, whose limit is smaller by the key block |
| `Hmac.HmacContext.FinalBits` | hmac.c:178-185 | for every bit count and every state of the inner hash: 1 to 7 bits end the text, none change nothing, 8 or more break it |
| `Hmac.HmacContext.Result` | hmac.c:208-228 | fails exactly when the inner hash is broken, and then leaves the buffer alone; otherwise H(K0 xor opad, H(K0 xor ipad, text)) although the caller's buffer holds the inner digest in between |
| `Hmac.ComputeMac` | hmac.c:38-46 | the RFC 2104 section 2 value for every hash, key length and text, also when the digest overwrites the text or the key |
| `Hmac.MacOfPieces` | hmac.c:69-228 | a whole run of the four calls over any pieces and any bit count: the RFC 2104 section 2 value of the concatenated text with its final bits, or an error and an untouched buffer exactly when the text is too long or the bit count is 8 or more |
| `Hmac.MacOfPads` | hmac.c:69-228 | the specification's MAC is H(opad block, H(ipad block, text)) for any key block that is the key or its digest filled with zeros, and any pads that turn over the bits of 0x36 and 0x5c in it |
| `Bits.Xor8Bits` | hmac.c:112-121 | the exclusive or of octets turns over exactly the bits of the other octet |
| `Bits.ByteBitsShift` | sha1.c:169-204 | the bits of an octet, fixed by its lowest bit and a shift |
| `Hmac.YkHmacSha1` | ykpbkdf2.c:36-49 | succeeds exactly when the output has 20 octets or more; its first 20 are then the RFC 2104 HMAC-SHA1 of text under key as they were before the call, the rest as before, though text and output may be one buffer; otherwise nothing is written |
| `Pbkdf2.DeriveBlock` | ykpbkdf2.c:71-92 | after j iterations of a block, octets within the output size carry T of RFC 8018 section 5.2, and the others the stale octet when j is odd and nothing when it is even |
| `Pbkdf2.ComputeKey` | ykpbkdf2.c:51-100 | succeeds exactly when no application of the function fails; the key is then the standard's, XORed with the stale octets that StaleAt names when the iteration count is odd; a salt over 256 octets is refused |
| `Pbkdf2.StandardExactlyWhen` | ykpbkdf2.c:84-98 | for any function and key: the result is the RFC 8018 key for every salt and every stack content if and only if dklen is at most the output size or the iteration count is even |
| `Pbkdf2.KeyIsStandardIff` | ykpbkdf2.c:84-98 | for one call: the standard's key if and only if the count is even or no stale octet differs from 0 |
| `Pbkdf2.KeyIsStandard` | ykpbkdf2.c:51-100 | the sufficient condition, for callers |
| `Pbkdf2.KeyDiffers` | ykpbkdf2.c:84-98 | a concrete salt and stack content for which the key is not the standard's, for every other length and count |
| `Pbkdf2.NumBlocksCover` | ykpbkdf2.c:60-61 | the number of blocks covers the key, and no fewer do |
| `KeyOctets.KeyBit` | ykpbkdf2.c:51-100 | for any chain of values, the first from the salt with the big-endian block number and each from the last: every bit of the standard's key in that block is the parity of that bit over the chain |
| `KeyDerivation.KeyLengthModes` | ykpers.c:249-262 | the bit tests give 20 octets if and only if the mode of the flags is OATH-HOTP or HMAC challenge-response |
| `KeyDerivation.PrfIsHmac` | ykpbkdf2.c:36-49 | the pseudo-random function is RFC 2104 HMAC-SHA1 with the key as key and the text as text, or nothing below 20 octets of output |
| `KeyDerivation.SaltIs` | ykpers.c:360-395 | the salt is the first eight octets of what was given, or all of it |
| `KeyDerivation.DerivesStandardKey` | ykpers.c:397-401 | with HMAC-SHA1 and 1024 iterations the derivation cannot fail and is the RFC 8018 key whatever the stack holds |
| `KeyDerivation.KeyFromPassphrase` | ykpers.c:342-415 | fails exactly without salt; otherwise 16 octets of PBKDF2-HMAC-SHA1(passphrase, first 8 salt octets, 1024) in the key and, exactly in the 20-octet modes, 4 more in uid; nothing else changes |
| `YkCore.Key.WaitForKeyStatus` | ykcore/ykcore.c:494-569 | the polling loop with doubling sleep and one-time extension behaves as Await, in result, data, key state and events on the port |
| `YkCore.SleptStep` | ykcore/ykcore.c:513-519 | doubling up to 500 ms has the closed form 2^n - 1 up to the ninth poll, then 511 + 500 (n - 9) |
| `Protocol.WaitTiming` | ykcore/ykcore.c:513-565 | after p polls of any key the wait has slept 2^p - 1 ms (p at most 9) or 511 + 500 (p - 9) ms; the 256000 ms extension is granted at most once and only to a caller that may block; total sleep stays below the effective limit plus 500 |
| `Protocol.AwaitTiming` | ykcore/ykcore.c:513-565 | the same from any poll of the wait |
| `Protocol.AwaitSucceedsExactly` | ykcore/ykcore.c:532-543 | for every reply sequence the wait succeeds exactly when the last polled report meets the mask, no earlier one did, and the caller gets the last one |
| `Protocol.AwaitFailsOnlyWhen` | ykcore/ykcore.c:545-568 | a timeout comes only past the effective limit or after the key stopped asking for a touch; the would-block error only to a caller that may not block, after the key asked |
| `Protocol.AwaitEndsAtOnce` | ykcore/ykcore.c:532-565 | for every reply sequence: the wait goes on behind a report only if that leaves it open, once the key has asked for a touch only while it asks; a touch that may not be waited for, a touch no longer asked for and a failed read end it at once, each with its own outcome |
| `Protocol.AwaitIsRun` | ykcore/ykcore.c:494-569 | the events of a wait are a history of the key |
| `YkCore.Key.BuildFrame` | ykcore/ykcore.c:684-693 | zero-padded payload, slot, CRC low octet first, filler |
| `KeyProtocol.FrameAgrees` | ykcore/ykdef.h:75-80 | a frame as the key reads it: payload and zeros up to octet 64, the command, the checksum of the 64 octets low octet first, zeros |
| `KeyProtocol.SliceAgrees` | ykcore/ykcore.c:707-733 | a report as the key reads it: seven octets of the frame and 0x80 plus the number of the slice |
| `KeyProtocol.FlagsAgree` | ykcore/ykdef.h:56-64 | the host takes 0x80, 0x40 and 0x20 of the last octet for write, response and touch, the low five bits for the number, and waits for them as such |
| `KeyProtocol.DummyAborts` | ykcore/ykdef.h:63 | the report that resets the key is the one with 0x8f |
| `YkCore.Key.WriteToKey` | ykcore/ykcore.c:671-740 | cutting the frame with a moving pointer and skipping all-zero middle slices behaves as WriteRun |
| `Protocol.OutgoingInOrder` | ykcore/ykcore.c:707-719 | for every frame, sequence numbers increase strictly within 0..9 and slice 9 is sent |
| `Protocol.FirstSlice` | ykcore/ykcore.c:715-719 | slice 0 is sent, and first |
| `Protocol.FrameIsRecovered` | ykcore/ykcore.c:707-733 | a zero-initialised receiver that stores slices at 7 times their sequence number has the whole frame, in spite of the skipped slices |
| `Protocol.SendOneFacts` | ykcore/ykcore.c:721-732 | a report is sent only right after one that shows the write flag clear |
| `Protocol.TransmitFacts` | ykcore/ykcore.c:707-735 | whatever the key does, the reports sent are the slices in order up to the first failure, each after a clear write flag |
| `Protocol.WriteDelivers` | ykcore/ykcore.c:671-740 | a success has delivered a recoverable frame; more than 64 octets are refused without traffic |
| `YkCore.Key.ReadResponse` | ykcore/ykcore.c:587-664 | for every buffer and every key, clearing, waiting and collecting slices behaves as ReadRun, with the buffer equal to the accepted octets and zeros, up to the point where the code would leave the buffer |
| `YkCore.Key.CollectSlices` | ykcore/ykcore.c:610-663 | the loop over slices, its end conditions and resets |
| `YkCore.Key.CheckSize` | ykcore/ykcore.c:623-641 | checksum over expected plus 2 octets, if the buffer has them, then the size rounded up to whole slices |
| `Protocol.CollectKeepsSlices` | ykcore/ykcore.c:610-663 | for every reply sequence the buffer is the data of the accepted slices; success exactly when the first report that is not a slice has sequence number 0 and the checks pass |
| `Protocol.ReadKeepsSlices` | ykcore/ykcore.c:587-664 | octets are read in sevens, never past the buffer; a success with a known size has the right size and checksum |
| `YkCore.Key.ChallengeResponse` | ykcore/ykcore.c:361-398 | for every buffer and every key, command check, write and read behave as ChallengeRun, up to that point |
| `Overruns.ChallengeOverrunsExactlyWhen` | ykcore/ykcore.c:604-641 | some key makes yk_challenge_response leave the caller's buffer if and only if a challenge command with at most 64 octets is sent and the buffer has fewer than 7 octets, or 15 or more but fewer than the response and two |
| `Overruns.ReadOverrunsExactlyWhen` | ykcore/ykcore.c:604-641 | the same for yk_read_response_from_key and every expected size |
| `Overruns.ChallengeOverrunsOnlyWhen` | ykcore/ykcore.c:604-641 | for every key, of any state type: no other buffer is left |
| `Overruns.HastyOverruns` | ykcore/ykcore.c:604-641 | one key that at once reports the end of its response leaves every such buffer |
| `ConformingKeys.ClearsInTime` | ykcore/ykcore.c:695-699 | a key that clears the write flag within 1150 ms is never timed out |
| `ConformingKeys.FrameArrives` | ykcore/ykcore.c:686-733 | such a key ends up with the whole frame and accepts the command |
| `ConformingKeys.AnswersInTime` | ykcore/ykcore.c:600-602 | a key that answers within 1000 ms, or asks for a touch of up to 255 s by then, is waited for; a caller that may not block gets the would-block error instead |
| `ConformingKeys.CollectsResponse` | ykcore/ykcore.c:604-663 | a well-formed response of n octets, for every n up to 215, is read exactly when the buffer has 7 ceil((n + 2) / 7) + 8 octets |
| `ConformingKeys.ChallengeIsAnswered` | ykcore/ykcore.c:361-398 | against every conforming key, for every challenge of up to 64 octets and every buffer of at least 7: success exactly when the buffer has 36 octets for an HMAC command, 29 for an OTP command (unless a touch is not waited for), the buffer then holds the key's response to slot and zero-padded challenge, and the key is idle again; too small a buffer gives the wrong-size error, never an overrun |
| `ConformingKeys.OtherCommandsRefused` | ykcore/ykcore.c:369-381 | every command but 0x20, 0x28, 0x30 and 0x38 is refused without any traffic |
| `KeyProtocol.LengthsAgree` | ykcore/ykcore.c:369-377 | the host expects 20 octets for 0x30 and 0x38 and 16 for 0x20 and 0x28, as the key's own protocol has it |
| `ConformingKeys.SessionIsAnswered` | ykcore/ykcore.c:361-398 | any number of exchanges with one key are all answered, whatever became of the earlier ones |
| `ReferenceKeys.ReferenceKeyConforms` | ykcore/ykdef.h:56-64 | for all delays within the limits there is a conforming key that also stores configurations |
| `YkCore.Key.WriteAndVerify` | ykcore/ykcore.c:218-256 | status, write, wait, status: behaves as ConfirmRun |
| `Protocol.WriteIsConfirmed` | ykcore/ykcore.c:218-256 | a success means the frame was delivered, the write flag was clear afterwards, and the program sequence number changed or no configuration is left |
| `ProgrammableKeys.WriteSucceedsExactlyWhen` | ykcore/ykcore.c:218-256 | against every key that stores programming commands in time, for every payload of up to 64 octets: the write goes through, the key is idle again, and the call succeeds if and only if the key changed its program sequence number or left no configuration |
| `VersionCompare.StrVersCmp` | ykpers-version.c:39-121 | for all NUL-free strings the two-pointer loop returns the lexicographic comparison of the strings' tokens, characters and runs of digits |
| `VersionCompare.CompareRuns` | ykpers-version.c:55-111 | the branches on leading zeros and lengths compare two runs |
| `VersionCompare.SwapNegates` | ykpers-version.c:39-121 | for all strings: swapping the arguments negates the sign, and only identical strings compare equal |
| `VersionCharacters.DecidedAtDifference` | ykpers-version.c:39-121 | told by characters, without tokens: for any two strings the place where they first differ and the digits in front of it decide, by code, by the length of the numbers, or by the rule for zeros in front |
| `VersionCharacters.Divided` | ykpers-version.c:39-121 | and any two strings that differ can be divided so |
| `VersionCompare.NotTransitive` | ykpers-version.c:65-101 | "02" < "021" < "031" < "02": a concrete cycle, so the comparison is no order on all strings |
| `VersionCompare.RunByValueExactlyWhen` | ykpers-version.c:55-111 | a run of digits compares by value with all canonical runs if and only if it is canonical |
| `VersionCompare.ByValueExactlyWhen` | ykpers-version.c:39-121 | a string compares by characters and integer values with all strings without padded numbers if and only if it has none itself |
| `VersionOrder.OnCycleExactlyWhen` | ykpers-version.c:39-121 | a string lies on a cycle of three NUL-free strings if and only if some number in it has a zero in front and a nonzero digit |
| `VersionOrder.Transitive` | ykpers-version.c:39-121 | the comparison is transitive on every three strings of which at least one has no such number, hence a total order on the strings without one |
| `VersionOrder.AcceptsSmallerExactlyWhen` | ykpers-version.c:39-130 | the version check accepts every version below an accepted one if and only if no number of the library's own version has a zero in front and a nonzero digit |
| `VersionOrder.DottedAcceptsSmaller` | ykpers-version.c:124-130 | so it does for every dotted number as the library's version |
| `VersionOrder.RunCycle` | ykpers-version.c:55-111 | for runs of digits: each run on a cycle has a zero in front and a nonzero digit |
| `VersionOrder.RunWitnesses` | ykpers-version.c:65-101 | and each such run lies on a cycle of runs |
| `VersionCompare.VersionsCompareAsNumbers` | ykpers-version.c:39-121 | on canonical dotted decimals of any length and size it is the lexicographic comparison of the integer lists, a proper prefix being smaller |
| `VersionCompare.CheckVersion` | ykpers-version.c:124-130 | the library's version is returned exactly when none is requested or the requested one does not compare greater |
| `YkConfig.Config.ConfigureCommand` | ykpers.c:163-226 | the switch with its fall-through stores exactly the commands of the firmware's generation and refuses all others |
| `YkConfig.CommandsMatchCapabilities` | ykpers.c:163-226 | for every firmware: the second slot, updates and the swap are commands exactly where the flag setters have the capability |
| `YkConfig.CommandsAre` | ykpers.c:163-226 | the firmware that takes each command, command by command in numbers, and no other commands |
| `YkConfig.CapableIs` | ykpers.c:583-727 | from which firmware version on there is each capability, with the NEO and 3.0 as exceptions; the checks of the code overlap and leave gaps that come to this |
| `JsonConfig.TextsDiffer` | ykpers_lcl.c:33-78 | no two rows or members share a JSON name |
| `JsonConfig.NamesAreUnique` | ykpers_lcl.c:33-78 | a name stands in one row of one table, and a named flag is a single bit |
| `JsonNames.ExportedFlag` | ykpers-json.c:173-204 | for every configuration and every one of the 25 names, with table, bit, modes and capability in numbers: the name is exported exactly when the flags show one of its modes, and says whether its bit is set |
| `JsonNames.ExportedMembers` | ykpers-json.c:75-114 | mode text by the bits 0x40 and 0x20, 0x02; target 1 or 2 for commands 1 and 3; protection none, random and id exactly for the types 1, 2 and 3 |
| `JsonNames.ExportedOath` | ykpers-json.c:153-171 | the digits by one bit, and the moving factor when it is 0 or 16 |
| `JsonNames.ImportedBits` | ykpers-json.c:221-328 | for every document and every firmware: after a successful import a bit is set if and only if it was, or the mode sets it, or some member with that bit is true, belongs to the mode and can be set |
| `JsonNames.ImportOutcome` | ykpers-json.c:221-263 | which documents are refused, with which error and what they leave, and which command the others leave |
| `JsonNames.ImportedSeed` | ykpers-json.c:284-297 | the moving factor that an import leaves in the last two octets of the uid, big-endian, or that it leaves them alone |
| `JsonNames.Spelling` | ykpers_lcl.c:33-78 | the spelling of every name |
| `JsonConfig.RecordedIs` | ykpers-json.c:173-204 | exporting a table records the flag of each row that applies to the mode and touches no other table's names |
| `JsonConfig.ChosenIsMasked` | ykpers-json.c:46-60 | importing what a table exported sets exactly the exported flags that mode and firmware allow |
| `JsonConfig.ConfigMaskIs` | ykpers_lcl.c:46-66 | which configuration flags those are, for each mode and firmware |
| `JsonConfig.TicketMaskIs` | ykpers_lcl.c:33-44 | which ticket flags |
| `JsonConfig.ExtendedMaskIs` | ykpers_lcl.c:68-78 | which extended flags |
| `JsonConfig.ExportConfig` | ykpers-json.c:62-219 | the loops over the tables build the specified document |
| `JsonConfig.ImportConfig` | ykpers-json.c:221-328 | the loops over the tables change the configuration as specified, including the partial changes of a refused import |
| `JsonConfig.ExportThenImport` | ykpers-json.c:221-328 | for every firmware, flags and command before the import: importing an export into a cleared configuration changes nothing but reports an error when it is for another target; otherwise the command is set as the firmware allows, the import fails exactly when an OATH configuration has no fixed seed, and else the flags of Restored and the moving factor come back |
| `JsonConfig.RestoredExactly` | ykpers-json.c:265-319 | with all capabilities: all three octets in static mode, ticket and extended octets in OTP and OATH modes, and the stated bits otherwise |
| `JsonConfig.ModeSurvivesExactlyWhen` | ykpers-json.c:75-86 | for every firmware the detected mode comes back if and only if the firmware has the mode's capability |
| `Reexport.SameExactlyWhen` | ykpers-json.c:62-328 | for every firmware, flags, moving factor and earlier uid: the configuration that an accepted import of an export leaves shows the same mode and exports the same options if and only if the firmware can have the mode, every exported flag that is set (the short-ticket bit of an OATH mode comes back as the bit of eight digits), and the moving factor, unless that was there before |
| `Reexport.SameWhenCapable` | ykpers-json.c:62-328 | with all capabilities it always does |
| `Reexport.ProtectionIsLost` | ykpers_lcl.c:33-44 | a key of version 1.3 whose configuration protects the second slot: the export again differs |
| `Reexport.RowComesBack` | ykpers-json.c:46-60 | each exported flag of each mode comes back exactly when it is set and the firmware can set it |
| `JsonConfig.ImfRoundTrip` | ykpers.c:729-759 | an accepted moving factor is read back; any other leaves uid alone |
| `Args.Parser.ArgsToConfig` | ykpers-args.c:278-863 | the option loop and the checks behind it accept exactly what Parse accepts, with the same configuration |
| `Args.Parser.Command` | ykpers-args.c:309-454 | -u, -x, -z and -n follow the transition |
| `Args.Parser.DeviceCommand` | ykpers-args.c:455-532 | -m, -S and -D |
| `Args.Parser.ChooseSlot` | ykpers-args.c:328-368 | -1 and -2 with their default flags follow the transition, whose command and bits ArgsMeaning gives in numbers |
| `Args.Parser.Set` | ykpers-args.c:533-710 | -o follows the transition, with the cleared flags of the first mode option |
| `Args.StepKeepsInv` | ykpers-args.c:309-765 | what every reachable state keeps: which options exclude each other and which command they leave |
| `Args.SwapExcludes` | ykpers-args.c:369-380 | in every accepted run, in any order, -x excludes slots, update, zap, NDEF, USB mode, scan map and device info, and the command is the swap |
| `Args.ZapNeedsSlot` | ykpers-args.c:381-388 | every accepted run with -z has chosen a slot and ends with a slot configuration or update command |
| `Args.UpdateIsUpdate` | ykpers-args.c:767-784 | in every accepted run with an update and a slot the command is an update of a slot and the flags are those an update may change |
| `ArgsMeaning.CommandIs` | ykpers-args.c:328-532 | for every list of options that gets through: the command sent, by its number, from the last option that stands for one |
| `ArgsMeaning.SlotIsSent` | ykpers-args.c:328-368 | without -n: -1 sends 1, or 4 with -u; -2 sends 3, or 5 with -u; and there are never both |
| `ArgsMeaning.FlagsAre` | ykpers-args.c:345-362 | for every list of options that gets through, bit by bit: a slot switches on its defaults, a mode leaves only its own bit, an option given on sets its flag and one given off clears it |
| `ArgsMeaning.AcceptedExactlyWhen` | ykpers-args.c:756-842 | such a list is accepted if and only if something to do was given, an update has set no bit outside those an update may change, and a slot programmed anew has a key |
| `Args.SingleCommandExactlyWhen` | ykpers-args.c:455-532 | a USB mode, scan map or device info is what is sent if and only if no slot (and, for device info, no scan map) is given as well |
| `Combinations.RunSucceedsExactlyWhen` | ykpers-args.c:309-765 | for every list of options: the loop gets through if and only if no option stands behind one it conflicts with, by a table of pairs, and none is refused for its own argument, command or setting |
| `Combinations.BesideUsbMode` | ykpers-args.c:455-532 | in every accepted run, beside -m there are no -x, -z, -n, -S and -D, and slots, -u and -o come after it |
| `Combinations.BesideScanMap` | ykpers-args.c:455-532 | beside -S there are no -x, -z, -n and -m, slots, -u and -o come after it, and -D only before an -S without argument |
| `Combinations.BesideDeviceInfo` | ykpers-args.c:455-532 | beside -D there are no -x, -z, -n and -m, and slots, -u, -o and an -S without argument come after it |
| `Args.CombinationsAccepted` | ykpers-args.c:328-345 | -m then -1, and -D then -S without argument, are accepted although the messages say they cannot be combined |
| `Ndef.NdefRecord.ConstructUri` | ykpers.c:438-464 | the loop over the identifiers stores the record of the specification, or leaves the object alone |
| `Ndef.NdefRecord.ConstructText` | ykpers.c:467-485 | the same for a text |
| `Ndef.NdefRecord.AsText` | ykpers.c:487-522 | the characters of the record at the front of the buffer, one left alone, then the terminator; fails exactly when the characters do not fit the size given |
| `Ndef.NdefRecord.UriThereAndBack` | tests/test_ndef_construction.c:39-82 | a URI constructed and read into a buffer of any length, that length being the size given: succeeds exactly when at most 53 octets follow the identifier and the URI fits, and then the front of the buffer is the URI |
| `Ndef.NdefRecord.TextThereAndBack` | tests/test_ndef_construction.c:84-100 | the same for a text that is not UTF-16, with any language |
| `Ndef.UriRoundTrip` | ykpers.c:438-522 | a URI is accepted exactly when what follows its identifier has at most 53 octets, and comes back |
| `NdefCodes.StoredUri` | ykpers.c:438-464 | the stored record of a URI: the smallest code of the NFC Forum's table whose text the URI starts with, or 0 when there is none, and the rest of the URI |
| `NdefCodes.StoredText` | ykpers.c:467-485 | the stored record of a text: the status octet with the length of the language and the top bit clear, language, text; a UTF-16 text gets status 0, as the mask leaves nothing of the length and nothing sets the bit |
| `Ndef.TextRoundTripExactlyWhen` | ykpers.c:467-522 | a text comes back if and only if it is not marked as UTF-16 or has no language; otherwise with the language in front |
| `Ndef.TerminatedExactlyWhen` | ykpers.c:503-504 | the terminator is written one place too far: a C program sees the string if and only if the buffer already had a NUL behind it |
| `Ndef.UrnIsFirst` | ykpers.c:92-108 | a urn: URI never gets one of the six longer urn: identifiers |

## Left out

- USB back ends, `Sleep` and the clock: the key is a machine that is told how long it was left alone.
- `yubikey_crc16` and the hex and modhex coders are not part of this model: the CRC is an arbitrary function, and decoding is part of an option.
- Null contexts and null configurations, memory allocation, clearing of secrets, thread-local error variables, and unknown hash numbers.
- ShaContexts.ShaContext.Input: the three source files hold the same streaming code; the model is one class with the sizes of the chosen hash, and Intermediate_Hash is a sequence field.
- Sha512Words.RoundPair: the macros are functions on word pairs; the static temporaries they share between calls are not modelled.
- Hmac.HmacContext.Input: negative lengths, which the code would take for huge ones, are not modelled.
- Pbkdf2.ComputeKey: the pseudo-random function is a function of key, text and output size; that text and output share a buffer is proved for HMAC-SHA1 in Hmac.YkHmacSha1.
- Pbkdf2.ComputeKey: salts of 253 to 256 octets and keys over 256 octets are required not to occur, because the code would run past its 256-octet block.
- YkCore.Key.ReadResponse: what the code does once it has left the caller's buffer; such runs end in the outcome Overrun, and Overruns.ReadOverrunsExactlyWhen says for which buffers there are any.
- YkCore.Key.WaitForKeyStatus: time limits within 256500 ms of the largest unsigned int, where the sums would wrap around, are required not to occur; the library uses 1000 and 1150 ms.
- ReferenceKeys.ReferenceKeyConforms: shows that conforming keys exist; that a given hardware key is one is an assumption about the hardware.
- ConformingKeys.ChallengeIsAnswered: for buffers of at least 7 octets, as the first slice overruns any other, and for keys that need a touch of at most 255 s; the code itself waits up to 257 s in all.
- Reading serial number and capabilities, NDEF and device-configuration writes: instances of the write and read above with other commands.
- VersionCompare.StrVersCmp: only the sign of a result is modelled.
- JSON text: a document is a map, so parsing, printing and members of the wrong type other than booleans and integers are not modelled; public prefix, scope and fixedModhex are exported only and left out.
- JsonConfig.ImportConfig: a JSON integer outside the int range is not clamped as json-c does.
- The legacy text export, and the flag setters and getters as properties of their own.
- Args.Parser.ArgsToConfig: getopt itself, the spelling of -o arguments, file names, prompts and the stored values of fixed, uid, access code and key are not modelled; usage and error exits are one refusal.
- Ndef.NdefRecord.AsText: when the decoded text fits the size given, the buffer is required to hold two octets more than the text, because the terminator would otherwise be written past it; the record is required to name an existing identifier and to have a length.
- Ndef.NdefRecord.UriThereAndBack: buffers that hold the URI but not two octets more are required not to occur, for the same reason; so also for the text.
- KeyDerivation.KeyFromPassphrase: the random device is a parameter that yields the octets or nothing; passphrases are within the int range, as the cast in yk_hmac_sha1 assumes.
- UTF-16 text beyond what Ndef.TextRoundTripExactlyWhen says of it.
- The configuration record holds its octet fields as sequences, so aliasing between them is not modelled.
- The mains of the three programs.
