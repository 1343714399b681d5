/** The eight-entry replay ring of one crypto context, and the list it stands for. */
module ReplayRing {
  import opened Bytes
  import opened SessionSpec

  /** A fixed 32-byte slot; only the first `length` bytes mean anything. */
  datatype ReplayEntry = ReplayEntry(data: seq<byte>, length: nat)

  const BLANK: seq<byte> := seq(MAX_PAYLOAD, _ => 0)
  const EMPTY_HISTORY: seq<ReplayEntry> := seq(REPLAY_HISTORY_SIZE, _ => ReplayEntry(BLANK, 0))

  predicate EntryIs(entry: ReplayEntry, ciphertext: seq<byte>) {
    && |entry.data| == MAX_PAYLOAD && entry.length <= MAX_PAYLOAD
    && entry.data[..entry.length] == ciphertext
  }

  /** The position in the log that ring slot `i` belongs to; negative if none yet. */
  function LogIndex(i: nat, head: nat, count: nat): int {
    if i < head then count - head + i else count - head + i - REPLAY_HISTORY_SIZE
  }

  predicate ValidLog(log: seq<seq<byte>>) {
    forall k :: 0 <= k < |log| ==> 1 <= |log[k]| <= MAX_PAYLOAD
  }

  ghost predicate SlotHolds(entry: ReplayEntry, k: int, log: seq<seq<byte>>)
    requires k < |log|
  {
    EntryIs(entry, if k < 0 then [] else log[k])
  }

  /** The ring holds exactly the last min(8, n) entries of the log, the next
      write position being n modulo 8. */
  ghost predicate RingHolds(history: seq<ReplayEntry>, head: nat, log: seq<seq<byte>>) {
    && |history| == REPLAY_HISTORY_SIZE
    && head == |log| % REPLAY_HISTORY_SIZE
    && ValidLog(log)
    && forall i :: 0 <= i < REPLAY_HISTORY_SIZE ==> SlotHolds(history[i], LogIndex(i, head, |log|), log)
  }

  lemma EmptyRing()
    ensures RingHolds(EMPTY_HISTORY, 0, [])
  {
  }

  /** The slot that keeps position `k` of the log, for the last eight positions. */
  lemma SlotOf(head: nat, count: nat, k: nat) returns (i: nat)
    requires head == count % REPLAY_HISTORY_SIZE
    requires count - REPLAY_HISTORY_SIZE <= k < count
    ensures i < REPLAY_HISTORY_SIZE && LogIndex(i, head, count) == k
  {
    i := if k >= count - head then k - (count - head) else k - (count - head) + REPLAY_HISTORY_SIZE;
  }

  /** Searching the ring is searching the last eight entries of the log. */
  method IsReplayed(history: seq<ReplayEntry>, ciphertext: seq<byte>, ghost head: nat, ghost log: seq<seq<byte>>)
    returns (seen: bool)
    requires RingHolds(history, head, log)
    ensures seen <==> 1 <= |ciphertext| <= MAX_PAYLOAD && ciphertext in Recent(log)
  {
    if |ciphertext| == 0 || |ciphertext| > MAX_PAYLOAD {
      return false;
    }
    for i := 0 to |history|
      invariant forall j :: 0 <= j < i ==> !EntryIs(history[j], ciphertext)
    {
      assert SlotHolds(history[i], LogIndex(i, head, |log|), log);
      if history[i].length == |ciphertext| && history[i].data[..|ciphertext|] == ciphertext {
        var k := LogIndex(i, head, |log|);
        assert log[k] == ciphertext;
        assert Recent(log)[if |log| <= REPLAY_HISTORY_SIZE then k else k - (|log| - REPLAY_HISTORY_SIZE)] == ciphertext;
        return true;
      }
    }
    forall r | 0 <= r < |Recent(log)|
      ensures Recent(log)[r] != ciphertext
    {
      var k := if |log| <= REPLAY_HISTORY_SIZE then r else r + |log| - REPLAY_HISTORY_SIZE;
      var i := SlotOf(head, |log|, k);
      assert SlotHolds(history[i], k, log);
    }
    return false;
  }

  lemma RecordHolds(history: seq<ReplayEntry>, head: nat, ciphertext: seq<byte>, log: seq<seq<byte>>,
                    updated: seq<ReplayEntry>, next: nat)
    requires RingHolds(history, head, log) && 1 <= |ciphertext| <= MAX_PAYLOAD
    requires |updated| == REPLAY_HISTORY_SIZE && EntryIs(updated[head], ciphertext)
    requires forall i :: 0 <= i < REPLAY_HISTORY_SIZE && i != head ==> updated[i] == history[i]
    requires next == (head + 1) % REPLAY_HISTORY_SIZE
    ensures RingHolds(updated, next, log + [ciphertext])
  {
    var longer := log + [ciphertext];
    forall i | 0 <= i < REPLAY_HISTORY_SIZE
      ensures SlotHolds(updated[i], LogIndex(i, next, |longer|), longer)
    {
      if i != head {
        assert SlotHolds(history[i], LogIndex(i, head, |log|), log);
      }
    }
  }

  /** Writing one entry appends to the log. */
  method Record(history: seq<ReplayEntry>, head: nat, ciphertext: seq<byte>, ghost log: seq<seq<byte>>)
    returns (updated: seq<ReplayEntry>, next: nat)
    requires RingHolds(history, head, log)
    requires 1 <= |ciphertext| <= MAX_PAYLOAD
    ensures RingHolds(updated, next, log + [ciphertext])
  {
    assert SlotHolds(history[head], LogIndex(head, head, |log|), log);
    var slot := ReplayEntry(ciphertext + history[head].data[|ciphertext|..], |ciphertext|);
    updated := history[head := slot];
    next := (head + 1) % REPLAY_HISTORY_SIZE;
    RecordHolds(history, head, ciphertext, log, updated, next);
  }
}
