/** Classification of decrypted keypad frames. */
module LockProtocol {
  import opened Bytes
  import opened KeypadFrames

  datatype CommandType = Unknown | Lock | Unlock | StatePoll | Doorbell

  const METHOD_UNKNOWN: byte := 0x00
  const METHOD_PIN: byte := 0x04
  const METHOD_NFC: byte := 0x08
  const METHOD_FINGERPRINT: byte := 0x0C
  const METHOD_FACE: byte := 0x18

  /** `means` is the raw method byte: the program casts it without a check. */
  datatype DecodedCommand = DecodedCommand(kind: CommandType, means: byte, index: int)

  const NO_COMMAND := DecodedCommand(Unknown, METHOD_UNKNOWN, -1)

  const FRAME_LOCK: seq<byte> := [0x0F, 0x4E, 0x01, 0x03, 0x00, 0x00, 0x00, 0x00]
  const FRAME_ACTION: seq<byte> := [0x0F, 0x4E, 0x01, 0x03]
  const FRAME_STATE_POLL_PREFIX: seq<byte> := [0x0F, 0x4F, 0x81]
  const FRAME_DOORBELL: seq<byte> := [0x01, 0x03]

  const UNLOCK_MARKER: byte := 0x80
  const UNLOCK_INDEX_BASE: byte := 0x0A

  function CredentialIndex(raw: byte): int {
    if raw >= UNLOCK_INDEX_BASE then (raw - UNLOCK_INDEX_BASE) as int else raw as int
  }

  predicate IsUnlockFrame(plaintext: seq<byte>) {
    |plaintext| >= 8 && plaintext[..4] == FRAME_ACTION && plaintext[5] == UNLOCK_MARKER
  }

  function Decode(plaintext: seq<byte>): DecodedCommand {
    if plaintext == FRAME_LOCK then
      NO_COMMAND.(kind := Lock)
    else if |plaintext| == 4 && plaintext[..3] == FRAME_STATE_POLL_PREFIX then
      NO_COMMAND.(kind := StatePoll)
    else if plaintext == FRAME_DOORBELL then
      NO_COMMAND.(kind := Doorbell)
    else if IsUnlockFrame(plaintext) then
      DecodedCommand(Unlock, plaintext[4], CredentialIndex(plaintext[6]))
    else
      NO_COMMAND
  }

  /** Commands that change the security state and pass through the replay filter. */
  predicate IsAction(command: DecodedCommand) {
    command.kind == Lock || command.kind == Unlock
  }

  /** The only command a superseded generation may still carry out. */
  predicate IsFastUnlock(command: DecodedCommand) {
    command.kind == Unlock &&
    command.means in {METHOD_PIN, METHOD_NFC, METHOD_FINGERPRINT, METHOD_FACE}
  }

  lemma PrefixBytes(p: seq<byte>)
    requires |p| >= 4
    ensures p[..4] == FRAME_ACTION <==> p[0] == 0x0F && p[1] == 0x4E && p[2] == 0x01 && p[3] == 0x03
    ensures p[..3] == FRAME_STATE_POLL_PREFIX <==> p[0] == 0x0F && p[1] == 0x4F && p[2] == 0x81
  {
  }

  lemma IndexFits(raw: byte)
    ensures CredentialIndex(raw) == if raw as int >= 10 then raw as int - 10 else raw as int
  {
  }

  /** Every kind of command is recognised from exactly its own bytes, and an unlock
      frame yields its method byte and its credential. */
  lemma Classification(p: seq<byte>)
    ensures Decode(p).kind == Lock <==> IsLockBytes(p)
    ensures Decode(p).kind == Unlock <==> IsUnlockBytes(p)
    ensures Decode(p).kind == StatePoll <==> IsPollBytes(p)
    ensures Decode(p).kind == Doorbell <==> IsDoorbellBytes(p)
    ensures IsUnlockBytes(p) ==> Decode(p).means == p[4] && Decode(p).index == CredentialOf(p)
    ensures !IsUnlockBytes(p) ==> Decode(p).means == 0x00 && Decode(p).index == -1
    ensures IsFastUnlock(Decode(p)) <==> IsFastUnlockBytes(p)
    ensures IsAction(Decode(p)) <==> IsActionBytes(p)
  {
    if |p| >= 4 {
      PrefixBytes(p);
    }
    if |p| >= 8 {
      IndexFits(p[6]);
    }
  }

  /** An unlock frame as a keypad builds it, with any trailing bytes. */
  function UnlockFrame(means: byte, index: byte, tail: seq<byte>): seq<byte>
    requires |tail| >= 1
  {
    [0x0F, 0x4E, 0x01, 0x03, means, 0x80, index] + tail
  }

  /** Every unlock frame is recognised, whatever its method, index and tail, and
      yields them; and nothing else is. */
  lemma UnlockFramesExactly(plaintext: seq<byte>)
    ensures Decode(plaintext).kind == Unlock <==>
            exists means, index, tail: seq<byte> ::
              |tail| >= 1 && plaintext == UnlockFrame(means, index, tail)
    ensures forall means, index, tail: seq<byte> | |tail| >= 1 && plaintext == UnlockFrame(means, index, tail) ::
              Decode(plaintext).means == means &&
              Decode(plaintext).index == if index as int >= 10 then index as int - 10 else index as int
  {
    Classification(plaintext);
    if IsUnlockBytes(plaintext) {
      assert plaintext == UnlockFrame(plaintext[4], plaintext[6], plaintext[7..]);
    }
  }

  lemma ByteValue(a: byte, b: byte)
    ensures a as int == b as int <==> a == b
    ensures a <= b <==> a as int <= b as int
  {
  }

  /** The credential index is ambiguous: a raw byte below the bias and the byte
      ten above it read as the same credential, and no other two bytes do. */
  lemma CredentialIndexAmbiguity(a: byte, b: byte)
    requires a <= b
    ensures CredentialIndex(a) == CredentialIndex(b) <==> a == b || (a as int < 10 && b as int == a as int + 10)
  {
    IndexFits(a);
    IndexFits(b);
    ByteValue(a, b);
  }
}
