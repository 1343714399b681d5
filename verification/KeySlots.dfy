/**
 What a keypad or a lock does with the commands that write a key: the meaning the
 links are measured against. A slot is opened, which forgets what it held, and then
 takes the two halves of a key, each by its index; anything else leaves it alone.
 */
module KeySlots {
  import opened Bytes

  type SharedKey = s: seq<byte> | |s| == 16 witness seq(16, _ => 0)

  /** The open slot, if any, and the halves written to it. */
  datatype Slot = Slot(number: Option<byte>, low: Option<seq<byte>>, high: Option<seq<byte>>)

  const CLOSED := Slot(None, None, None)

  function ObeySlot(s: Slot, command: seq<byte>): Slot {
    if |command| == 5 && command[..3] == [0x0F, 0x20, 0x03] &&
       command[4] == (if command[3] == 0xC6 then 0x80 else 0x69) then
      Slot(Some(command[3]), None, None)
    else if |command| == 13 && command[..3] == [0x0F, 0x20, 0x04] && s.number == Some(command[3]) then
      if command[4] == 0x00 then s.(low := Some(command[5..]))
      else if command[4] == 0x01 then s.(high := Some(command[5..]))
      else s
    else s
  }

  /** The key a slot holds once both halves have been written. */
  function KeyHeld(s: Slot): Option<seq<byte>> {
    if s.low.Some? && s.high.Some? then Some(s.low.value + s.high.value) else None
  }

  lemma HalvesMeet(key: SharedKey)
    ensures key[..8] + key[8..] == key
  {
  }
}
