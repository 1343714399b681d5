/**
 The bytes on the air, written out: what a keypad sends, before any of the
 program's own constants and tests. The decoder and the session are measured
 against these; nothing here is part of them.
 */
module KeypadFrames {
  import opened Bytes

  // ----- Decrypted payloads --------------------------------------------------

  predicate IsLockBytes(p: seq<byte>) {
    p == [0x0F, 0x4E, 0x01, 0x03, 0x00, 0x00, 0x00, 0x00]
  }

  predicate IsUnlockBytes(p: seq<byte>) {
    |p| >= 8 && p[0] == 0x0F && p[1] == 0x4E && p[2] == 0x01 && p[3] == 0x03 && p[5] == 0x80
  }

  predicate IsPollBytes(p: seq<byte>) {
    |p| == 4 && p[0] == 0x0F && p[1] == 0x4F && p[2] == 0x81
  }

  predicate IsDoorbellBytes(p: seq<byte>) {
    p == [0x01, 0x03]
  }

  /** A frame that changes the lock. */
  predicate IsActionBytes(p: seq<byte>) {
    IsLockBytes(p) || IsUnlockBytes(p)
  }

  /** PIN, NFC, fingerprint and face. */
  predicate IsKnownMethod(means: byte) {
    means == 0x04 || means == 0x08 || means == 0x0C || means == 0x18
  }

  predicate IsFastUnlockBytes(p: seq<byte>) {
    IsUnlockBytes(p) && IsKnownMethod(p[4])
  }

  /** The credential an unlock frame names: its raw byte, less ten from ten up. */
  function CredentialOf(p: seq<byte>): int
    requires IsUnlockBytes(p)
  {
    var raw := p[6] as int;
    if raw >= 10 then raw - 10 else raw
  }

  // ----- Frames --------------------------------------------------------------

  predicate IsRequestBytes(frame: seq<byte>) {
    && |frame| >= 8
    && frame[0] == 0x57 && frame[1] == 0x00 && frame[2] == 0x00 && frame[3] == 0x00
    && frame[4] == 0x0F && frame[5] == 0x21 && frame[6] == 0x03
  }

  /** An encrypted frame of a slot under an IV, of a length the session reads. */
  predicate IsFrameUnder(frame: seq<byte>, slot: byte, iv: Iv) {
    && 5 <= |frame| <= 36
    && frame[0] == 0x57 && frame[1] == slot && frame[2] == iv[0] && frame[3] == iv[1]
    && !IsRequestBytes(frame)
  }
}
