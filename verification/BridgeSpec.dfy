/** The bridge around the session, as a fold over the queued events, and the
    interleaving of the Bluetooth task that queues them with the main loop. */
module BridgeSpec {
  import opened Bytes
  import opened AesCtr
  import opened KeypadFrames
  import opened LockProtocol
  import opened SessionSpec
  import opened SessionTrace
  import opened SessionInvariant
  import SessionTheorems

  datatype QueuedEvent = Connect | Disconnect | Frame(bytes: seq<byte>)

  /** One thing the main loop did to the session: it met a queued event, with the
      cipher's success flags, or made one of the three calls of a pairing reset. */
  datatype Handled =
    | Handled(event: QueuedEvent, decryptOk: bool, encryptOk: bool)
    | NewKey(key: Key)
    | ClearSession
    | ForgetKeypad

  datatype LockState = Locked | Unlocked

  /** What leaves the bridge, in order. */
  datatype Output =
    | Notify(packet: seq<byte>)
    | LockEvent
    | UnlockEvent(means: byte, index: int)
    | DoorbellEvent

  const RESPONSE_LOCK: seq<byte> := [0x90, 0x0A, 0x7F, 0x7F, 0x00]
  const RESPONSE_UNLOCK: seq<byte> := [0x98, 0x08, 0x7F, 0x7F, 0x00]
  const STATE_PAYLOAD_TAIL: seq<byte> :=
    [0x08, 0x08, 0x41, 0x00, 0x00, 0x00, 0x00, 0x80, 0xF2, 0xFB, 0x00, 0x00, 0x00]

  function StateByte(lock: LockState): byte {
    if lock.Locked? then 0x81 else 0x91
  }

  datatype BridgeState = BridgeState(session: State, lock: LockState, outbox: seq<Output>)

  // ----- One event -----------------------------------------------------------

  function SessionEvent(h: Handled): Event {
    match h
    case Handled(Connect, _, _) => TransportReset
    case Handled(Disconnect, _, _) => TransportReset
    case Handled(Frame(bytes), decryptOk, _) => Rx(bytes, decryptOk)
    case NewKey(key) => SetKey(key)
    case ClearSession => Reset
    case ForgetKeypad => ForgetSlot
  }

  predicate EncryptionWorks(h: Handled) {
    h.Handled? && h.encryptOk
  }

  function LockAfter(lock: LockState, o: Observation): LockState {
    if !RecordsAction(o) then lock else if o.command.kind == Lock then Locked else Unlocked
  }

  function Published(command: DecodedCommand): seq<Output> {
    match command.kind
    case Lock => [LockEvent]
    case Unlock => [UnlockEvent(command.means, command.index)]
    case Doorbell => [DoorbellEvent]
    case _ => []
  }

  /** The plaintext of the encrypted answer to a command, if it gets one. */
  function AnswerPayload(command: DecodedCommand, lock: LockState): Option<seq<byte>> {
    match command.kind
    case Lock => Some(RESPONSE_LOCK)
    case Unlock => Some(RESPONSE_UNLOCK)
    case StatePoll => Some([StateByte(lock)] + STATE_PAYLOAD_TAIL)
    case _ => None
  }

  function Answer(env: Env, st: State, o: Observation, lock: LockState, encryptOk: bool): seq<Output>
    requires o.Attempt?
  {
    match AnswerPayload(o.command, lock)
    case None => [Notify([0x01, o.slot, o.iv[0], o.iv[1]])]
    case Some(payload) =>
      (match Reply(env, st, o.slot, o.iv[0], o.iv[1], payload, encryptOk)
       case None => []
       case Some(packet) => [Notify(packet)])
  }

  function Outputs(env: Env, st: State, o: Observation, lock: LockState, encryptOk: bool): seq<Output> {
    if o.Advertised? then [Notify([0x01, 0x00, 0x00, 0x00] + o.iv)]
    else if o.Attempt? && o.accepted then Published(o.command) + Answer(env, st, o, lock, encryptOk)
    else []
  }

  function Handle(env: Env, b: BridgeState, h: Handled): BridgeState {
    var o := Observe(env, b.session, SessionEvent(h));
    var st := Apply(b.session, o);
    var lock := LockAfter(b.lock, o);
    BridgeState(st, lock, b.outbox + Outputs(env, st, o, lock, EncryptionWorks(h)))
  }

  // ----- Whole runs ----------------------------------------------------------

  /** The bridge after handling a sequence of events, set up with a first key. */
  function RunBridge(env: Env, key: Key, hs: seq<Handled>): BridgeState {
    if hs == [] then BridgeState(Run(env, [SetKey(key)]).0, Locked, [])
    else Handle(env, RunBridge(env, key, hs[..|hs| - 1]), hs[|hs| - 1])
  }

  function SessionEvents(key: Key, hs: seq<Handled>): (events: seq<Event>)
    ensures |events| == |hs| + 1
  {
    if hs == [] then [SetKey(key)]
    else SessionEvents(key, hs[..|hs| - 1]) + [SessionEvent(hs[|hs| - 1])]
  }

  /** The session's observations during a run of the bridge. */
  function Observed(env: Env, key: Key, hs: seq<Handled>): Trace {
    Run(env, SessionEvents(key, hs)).1
  }

  lemma SessionEventsExtend(key: Key, hs: seq<Handled>, h: Handled)
    ensures SessionEvents(key, hs + [h]) == SessionEvents(key, hs) + [SessionEvent(h)]
  {
    assert (hs + [h])[..|hs|] == hs;
  }

  lemma RunBridgeExtends(env: Env, key: Key, hs: seq<Handled>, h: Handled)
    ensures RunBridge(env, key, hs + [h]) == Handle(env, RunBridge(env, key, hs), h)
  {
    assert (hs + [h])[..|hs|] == hs;
  }

  /** The bridge drives its session through exactly one event a turn, so everything
      proved of session runs holds of bridge runs, pairing resets included. */
  lemma {:induction false} BridgeDrivesSession(env: Env, key: Key, hs: seq<Handled>)
    ensures RunBridge(env, key, hs).session == Run(env, SessionEvents(key, hs)).0
    ensures hs != [] ==>
              var before := hs[..|hs| - 1];
              Observed(env, key, hs) == Observed(env, key, before) +
                [Observe(env, RunBridge(env, key, before).session, SessionEvent(hs[|hs| - 1]))]
  {
    if hs != [] {
      BridgeDrivesSession(env, key, hs[..|hs| - 1]);
      RunExtends(env, SessionEvents(key, hs[..|hs| - 1]), SessionEvent(hs[|hs| - 1]));
    }
  }

  lemma StartTrace(env: Env, key: Key)
    ensures Observed(env, key, []) == [Rekeyed(key)]
  {
    RunExtends(env, [], SetKey(key));
    assert [] + [SetKey(key)] == [SetKey(key)];
  }

  // ----- End to end ----------------------------------------------------------

  /** The event a payload calls for, by its bytes. */
  function EventFor(p: seq<byte>): seq<Output> {
    if IsLockBytes(p) then [LockEvent]
    else if IsUnlockBytes(p) then [UnlockEvent(p[4], CredentialOf(p))]
    else if IsDoorbellBytes(p) then [DoorbellEvent]
    else []
  }

  /** What the lock shows once a payload has been accepted. */
  function LockFor(p: seq<byte>, lock: LockState): LockState {
    if IsLockBytes(p) then Locked else if IsUnlockBytes(p) then Unlocked else lock
  }

  /** The payload of the encrypted answer a payload calls for; none for a doorbell or
      anything unknown, which get the bare header. */
  function AnswerFor(p: seq<byte>, lock: LockState): Option<seq<byte>> {
    if IsLockBytes(p) then Some([0x90, 0x0A, 0x7F, 0x7F, 0x00])
    else if IsUnlockBytes(p) then Some([0x98, 0x08, 0x7F, 0x7F, 0x00])
    else if IsPollBytes(p) then
      Some([if lock.Unlocked? then 0x91 else 0x81,
            0x08, 0x08, 0x41, 0x00, 0x00, 0x00, 0x00, 0x80, 0xF2, 0xFB, 0x00, 0x00, 0x00])
    else None
  }

  /** The bridge does what the bytes call for. */
  lemma DecodedCalls(p: seq<byte>, lock: LockState)
    ensures Published(Decode(p)) == EventFor(p)
    ensures AnswerPayload(Decode(p), lock) == AnswerFor(p, lock)
    ensures AnswerFor(p, lock).Some? ==> |AnswerFor(p, lock).value| <= 14
    ensures AnswerFor(p, lock).None? <==> !IsActionBytes(p) && !IsPollBytes(p)
  {
    Classification(p);
    assert [StateByte(lock)] + STATE_PAYLOAD_TAIL ==
           [if lock.Unlocked? then 0x91 else 0x81,
            0x08, 0x08, 0x41, 0x00, 0x00, 0x00, 0x00, 0x80, 0xF2, 0xFB, 0x00, 0x00, 0x00];
  }

  /** What is observed of a turn was decoded from the bytes that were decrypted. */
  predicate Decoded(o: Observation) {
    o.Attempt? ==> o.command == Decode(o.plaintext)
  }

  lemma TurnDecoded(env: Env, st: State, h: Handled)
    ensures Decoded(Observe(env, st, SessionEvent(h)))
  {
    if Observe(env, st, SessionEvent(h)).Attempt? {
      SessionTheorems.AttemptContents(env, st, SessionEvent(h));
    }
  }

  lemma LockAfterBytes(lock: LockState, o: Observation)
    requires Decoded(o)
    ensures LockAfter(lock, o) == if Accepted(o) then LockFor(o.plaintext, lock) else lock
  {
    if o.Attempt? {
      Classification(o.plaintext);
    }
  }

  predicate AcceptedUnlock(o: Observation) {
    Accepted(o) && IsUnlockBytes(o.plaintext)
  }

  predicate AcceptedAction(o: Observation) {
    Accepted(o) && (IsLockBytes(o.plaintext) || IsUnlockBytes(o.plaintext))
  }

  /** Some accepted unlock has no accepted lock or unlock after it. */
  predicate LastActionUnlocked(tr: Trace) {
    exists i :: 0 <= i < |tr| && AcceptedUnlock(tr[i]) && forall j :: i < j < |tr| ==> !AcceptedAction(tr[j])
  }

  lemma LastActionExtends(tr: Trace, o: Observation)
    ensures LastActionUnlocked(tr + [o]) <==> if AcceptedAction(o) then AcceptedUnlock(o) else LastActionUnlocked(tr)
  {
    var ext := tr + [o];
    assert ext[|tr|] == o;
    assert forall i :: 0 <= i < |tr| ==> ext[i] == tr[i];
    if LastActionUnlocked(tr) && !AcceptedAction(o) {
      var i :| 0 <= i < |tr| && AcceptedUnlock(tr[i]) && forall j :: i < j < |tr| ==> !AcceptedAction(tr[j]);
      assert AcceptedUnlock(ext[i]);
    }
    if LastActionUnlocked(ext) {
      var i :| 0 <= i < |ext| && AcceptedUnlock(ext[i]) && forall j :: i < j < |ext| ==> !AcceptedAction(ext[j]);
      if i < |tr| {
        assert !AcceptedAction(ext[|tr|]);
        assert AcceptedUnlock(tr[i]);
        forall j | i < j < |tr|
          ensures !AcceptedAction(tr[j])
        {
          assert !AcceptedAction(ext[j]);
        }
      }
    }
  }

  /** The lock is shown as unlocked exactly when some accepted unlock frame, by any
      method, has no accepted lock or unlock frame after it. */
  lemma {:induction false} LockStateExact(env: Env, key: Key, hs: seq<Handled>)
    ensures RunBridge(env, key, hs).lock == Unlocked <==> LastActionUnlocked(Observed(env, key, hs))
  {
    BridgeDrivesSession(env, key, hs);
    if hs != [] {
      var before, h := hs[..|hs| - 1], hs[|hs| - 1];
      var b := RunBridge(env, key, before);
      var o := Observe(env, b.session, SessionEvent(h));
      LockStateExact(env, key, before);
      LastActionExtends(Observed(env, key, before), o);
      TurnDecoded(env, b.session, h);
      LockAfterBytes(b.lock, o);
    } else {
      StartTrace(env, key);
    }
  }

  /** The events published to Home Assistant, without the packets. */
  function EventsIn(outbox: seq<Output>): seq<Output> {
    if outbox == [] then []
    else
      var last := outbox[|outbox| - 1];
      EventsIn(outbox[..|outbox| - 1]) + (if last.Notify? then [] else [last])
  }

  /** The events the accepted payloads call for, in order. */
  function AcceptedEvents(tr: Trace): seq<Output> {
    if tr == [] then []
    else AcceptedEvents(Init(tr)) + if Accepted(Last(tr)) then EventFor(Last(tr).plaintext) else []
  }

  lemma {:induction false} EventsInConcat(a: seq<Output>, b: seq<Output>)
    ensures EventsIn(a + b) == EventsIn(a) + EventsIn(b)
    decreases |b|
  {
    if b == [] {
      assert a + b == a;
    } else {
      var last := |b| - 1;
      EventsInConcat(a, b[..last]);
      assert (a + b)[..|a + b| - 1] == a + b[..last];
    }
  }

  lemma EventsOfAnswer(env: Env, st: State, o: Observation, lock: LockState, encryptOk: bool)
    requires o.Attempt?
    ensures EventsIn(Answer(env, st, o, lock, encryptOk)) == []
  {
    var answer := Answer(env, st, o, lock, encryptOk);
    assert answer == [] || (|answer| == 1 && answer[0].Notify?);
    if answer != [] {
      assert answer[..0] == [];
    }
  }

  lemma EventsOfPublished(command: DecodedCommand)
    ensures EventsIn(Published(command)) == Published(command)
  {
    var published := Published(command);
    if published != [] {
      assert published[..0] == [];
    }
  }

  lemma EventsOfOne(env: Env, st: State, o: Observation, lock: LockState, encryptOk: bool)
    ensures EventsIn(Outputs(env, st, o, lock, encryptOk)) == if Accepted(o) then Published(o.command) else []
  {
    if Accepted(o) {
      EventsInConcat(Published(o.command), Answer(env, st, o, lock, encryptOk));
      EventsOfAnswer(env, st, o, lock, encryptOk);
      EventsOfPublished(o.command);
    } else if o.Advertised? {
      assert Outputs(env, st, o, lock, encryptOk)[..0] == [];
    }
  }

  lemma AcceptedEventsExtend(tr: Trace, o: Observation)
    ensures AcceptedEvents(tr + [o]) == AcceptedEvents(tr) + (if Accepted(o) then EventFor(o.plaintext) else [])
  {
    assert Init(tr + [o]) == tr && Last(tr + [o]) == o;
  }

  lemma HandleAddsEvents(env: Env, b: BridgeState, h: Handled)
    ensures var o := Observe(env, b.session, SessionEvent(h));
            EventsIn(Handle(env, b, h).outbox) ==
              EventsIn(b.outbox) + (if Accepted(o) then EventFor(o.plaintext) else [])
  {
    var o := Observe(env, b.session, SessionEvent(h));
    var st, lock := Apply(b.session, o), LockAfter(b.lock, o);
    EventsInConcat(b.outbox, Outputs(env, st, o, lock, EncryptionWorks(h)));
    EventsOfOne(env, st, o, lock, EncryptionWorks(h));
    TurnDecoded(env, b.session, h);
    if Accepted(o) {
      DecodedCalls(o.plaintext, lock);
    }
  }

  /** The published events are the accepted lock, unlock and doorbell frames, in
      number and order, whatever the cipher does to the answers. */
  lemma {:induction false} EventsExact(env: Env, key: Key, hs: seq<Handled>)
    ensures EventsIn(RunBridge(env, key, hs).outbox) == AcceptedEvents(Observed(env, key, hs))
  {
    if hs == [] {
      StartTrace(env, key);
      AcceptedEventsExtend([], Rekeyed(key));
    } else {
      var before, h := hs[..|hs| - 1], hs[|hs| - 1];
      EventsExact(env, key, before);
      BridgeDrivesSession(env, key, hs);
      HandleAddsEvents(env, RunBridge(env, key, before), h);
      AcceptedEventsExtend(Observed(env, key, before),
                           Observe(env, RunBridge(env, key, before).session, SessionEvent(h)));
    }
  }

  /** The header of the one packet an observation draws, if it draws one: always for an
      IV request and for a command answered in the clear, and for any other accepted
      command when encryption succeeds. */
  function HeaderDrawn(o: Observation, encryptOk: bool): seq<seq<byte>> {
    if o.Advertised? then [[0x01, 0x00, 0x00, 0x00]]
    else if Accepted(o) && (encryptOk || !(IsActionBytes(o.plaintext) || IsPollBytes(o.plaintext))) then
      [[0x01, o.slot, o.iv[0], o.iv[1]]]
    else []
  }

  /** The headers a whole run draws. */
  function HeadersDrawn(tr: Trace, hs: seq<Handled>): seq<seq<byte>>
    requires |tr| == |hs| + 1
  {
    if hs == [] then []
    else HeadersDrawn(Init(tr), hs[..|hs| - 1]) + HeaderDrawn(Last(tr), EncryptionWorks(hs[|hs| - 1]))
  }

  /** The headers of the packets sent. */
  function HeadersIn(outbox: seq<Output>): seq<seq<byte>> {
    if outbox == [] then []
    else
      var last := outbox[|outbox| - 1];
      HeadersIn(outbox[..|outbox| - 1]) +
      (if last.Notify? then [if |last.packet| < HEADER_LEN then last.packet else last.packet[..HEADER_LEN]] else [])
  }

  lemma {:induction false} HeadersInConcat(a: seq<Output>, b: seq<Output>)
    ensures HeadersIn(a + b) == HeadersIn(a) + HeadersIn(b)
    decreases |b|
  {
    if b == [] {
      assert a + b == a;
    } else {
      var last := |b| - 1;
      HeadersInConcat(a, b[..last]);
      assert (a + b)[..|a + b| - 1] == a + b[..last];
    }
  }

  lemma HeadersInOne(output: Output)
    ensures HeadersIn([output]) ==
            if !output.Notify? then []
            else if |output.packet| < HEADER_LEN then [output.packet] else [output.packet[..HEADER_LEN]]
  {
    assert [output][..0] == [];
  }

  lemma HeaderOfAnswer(env: Env, st: State, o: Observation, lock: LockState, encryptOk: bool)
    requires Accepted(o) && Decoded(o) && st.replyIv == Some(o.iv)
    ensures HeadersIn(Answer(env, st, o, lock, encryptOk)) == HeaderDrawn(o, encryptOk)
  {
    var header := [0x01, o.slot, o.iv[0], o.iv[1]];
    DecodedCalls(o.plaintext, lock);
    match AnswerPayload(o.command, lock)
    case None =>
      HeadersInOne(Notify(header));
      assert header[..HEADER_LEN] == header;
    case Some(payload) =>
      if encryptOk {
        var packet := Reply(env, st, o.slot, o.iv[0], o.iv[1], payload, true).value;
        HeadersInOne(Notify(packet));
        assert packet[..HEADER_LEN] == header;
      }
  }

  lemma HeaderOfOne(env: Env, st: State, o: Observation, lock: LockState, encryptOk: bool)
    requires Decoded(o) && (Accepted(o) ==> st.replyIv == Some(o.iv))
    ensures HeadersIn(Outputs(env, st, o, lock, encryptOk)) == HeaderDrawn(o, encryptOk)
  {
    if Accepted(o) {
      var published := Published(o.command);
      HeadersInConcat(published, Answer(env, st, o, lock, encryptOk));
      HeaderOfAnswer(env, st, o, lock, encryptOk);
      if published != [] {
        HeadersInOne(published[0]);
        assert published == [published[0]];
      }
    } else if o.Advertised? {
      HeadersInOne(Notify([0x01, 0x00, 0x00, 0x00] + o.iv));
    }
  }

  /** Over a whole run the packets sent are, in number, order and header, one for each
      IV request and each accepted command whose answer is in the clear or could be
      encrypted; nothing else is ever sent. */
  lemma {:induction false} PacketsExact(env: Env, key: Key, hs: seq<Handled>)
    ensures HeadersIn(RunBridge(env, key, hs).outbox) == HeadersDrawn(Observed(env, key, hs), hs)
  {
    if hs != [] {
      var before, h := hs[..|hs| - 1], hs[|hs| - 1];
      var b := RunBridge(env, key, before);
      var o := Observe(env, b.session, SessionEvent(h));
      var st, lock := Apply(b.session, o), LockAfter(b.lock, o);
      PacketsExact(env, key, before);
      BridgeDrivesSession(env, key, hs);
      HeadersInConcat(b.outbox, Outputs(env, st, o, lock, EncryptionWorks(h)));
      TurnDecoded(env, b.session, h);
      HeaderOfOne(env, st, o, lock, EncryptionWorks(h));
    }
  }

  /** `packet` answers the command observed as `o` with `payload`, under its own IV. */
  predicate Answers(env: Env, o: Observation, packet: seq<byte>, payload: seq<byte>)
    requires o.Attempt?
  {
    && |packet| == 4 + |payload| && packet[..4] == [0x01, o.slot, o.iv[0], o.iv[1]]
    && Xcrypt(env.keystream, o.key, o.iv, packet[4..]) == payload
  }

  lemma EncryptedAnswer(env: Env, key: Key, hs: seq<Handled>, h: Handled, payload: seq<byte>)
    returns (packet: seq<byte>)
    requires EncryptionWorks(h) && |payload| <= 14
    requires var b := RunBridge(env, key, hs);
             var o := Observe(env, b.session, SessionEvent(h));
             Accepted(o) && AnswerPayload(o.command, LockAfter(b.lock, o)) == Some(payload)
    ensures var b := RunBridge(env, key, hs);
            var o := Observe(env, b.session, SessionEvent(h));
            && Answers(env, o, packet, payload)
            && RunBridge(env, key, hs + [h]).outbox == b.outbox + Published(o.command) + [Notify(packet)]
  {
    var b := RunBridge(env, key, hs);
    var o := Observe(env, b.session, SessionEvent(h));
    RunBridgeExtends(env, key, hs, h);
    BridgeDrivesSession(env, key, hs);
    RunExtends(env, SessionEvents(key, hs), SessionEvent(h));
    SessionTheorems.ReplyRoundTrip(env, SessionEvents(key, hs + [h]), o.slot, o.iv[0], o.iv[1], payload);
    packet := Reply(env, Apply(b.session, o), o.slot, o.iv[0], o.iv[1], payload, true).value;
  }

  /** What an accepted payload draws: after its event, if it has one, exactly one
      packet, which is the bare header or decrypts to the answer the bytes call for
      under the command's own IV; and none only when the answer could not be
      encrypted. */
  lemma CommandAnswered(env: Env, key: Key, hs: seq<Handled>, h: Handled)
    requires Accepted(Observe(env, RunBridge(env, key, hs).session, SessionEvent(h)))
    ensures var b := RunBridge(env, key, hs);
            var o := Observe(env, b.session, SessionEvent(h));
            var after := RunBridge(env, key, hs + [h]);
            && after.lock == LockFor(o.plaintext, b.lock)
            && match AnswerFor(o.plaintext, after.lock)
               case None =>
                 after.outbox == b.outbox + EventFor(o.plaintext) + [Notify([0x01, o.slot, o.iv[0], o.iv[1]])]
               case Some(payload) =>
                 if EncryptionWorks(h) then
                   exists packet :: Answers(env, o, packet, payload) &&
                                    after.outbox == b.outbox + EventFor(o.plaintext) + [Notify(packet)]
                 else after.outbox == b.outbox + EventFor(o.plaintext)
  {
    var b := RunBridge(env, key, hs);
    var o := Observe(env, b.session, SessionEvent(h));
    RunBridgeExtends(env, key, hs, h);
    TurnDecoded(env, b.session, h);
    LockAfterBytes(b.lock, o);
    DecodedCalls(o.plaintext, LockAfter(b.lock, o));
    match AnswerFor(o.plaintext, LockAfter(b.lock, o))
    case None =>
    case Some(payload) =>
      if EncryptionWorks(h) {
        var packet := EncryptedAnswer(env, key, hs, h, payload);
      }
  }

  /** An accepted lock or unlock frame is published and then, when encryption succeeds,
      answered with one packet that decrypts, under the IV that decrypted the
      command, to the fixed response for it. */
  lemma ActionAnswered(env: Env, key: Key, hs: seq<Handled>, h: Handled)
    requires EncryptionWorks(h)
    requires AcceptedAction(Observe(env, RunBridge(env, key, hs).session, SessionEvent(h)))
    ensures var o := Observe(env, RunBridge(env, key, hs).session, SessionEvent(h));
            exists packet ::
              && RunBridge(env, key, hs + [h]).outbox ==
                 RunBridge(env, key, hs).outbox + EventFor(o.plaintext) + [Notify(packet)]
              && Answers(env, o, packet, if IsLockBytes(o.plaintext) then [0x90, 0x0A, 0x7F, 0x7F, 0x00]
                                         else [0x98, 0x08, 0x7F, 0x7F, 0x00])
  {
    CommandAnswered(env, key, hs, h);
  }

  /** An accepted state poll is answered, when encryption succeeds, with one packet
      that decrypts under the poll's own IV to the lock state the accepted frames
      left, 0x91 for unlocked and 0x81 for locked, and the fixed tail; and with
      nothing else. */
  lemma PollAnswered(env: Env, key: Key, hs: seq<Handled>, h: Handled)
    requires EncryptionWorks(h)
    requires var o := Observe(env, RunBridge(env, key, hs).session, SessionEvent(h));
             Accepted(o) && IsPollBytes(o.plaintext)
    ensures var o := Observe(env, RunBridge(env, key, hs).session, SessionEvent(h));
            var stateByte := if LastActionUnlocked(Observed(env, key, hs)) then 0x91 else 0x81;
            exists packet ::
              && RunBridge(env, key, hs + [h]).outbox == RunBridge(env, key, hs).outbox + [Notify(packet)]
              && Answers(env, o, packet, [stateByte, 0x08, 0x08, 0x41, 0x00, 0x00, 0x00, 0x00, 0x80,
                                          0xF2, 0xFB, 0x00, 0x00, 0x00])
  {
    LockStateExact(env, key, hs);
    CommandAnswered(env, key, hs, h);
    assert RunBridge(env, key, hs).outbox + [] == RunBridge(env, key, hs).outbox;
  }

  /** From the bytes to the air and back: any payload under the latest IV that is not a
      repeated action has its event published, is shown in the lock state and is
      answered, all as its bytes call for. */
  lemma PayloadCarriedOut(env: Env, key: Key, hs: seq<Handled>, i: nat, plaintext: seq<byte>)
    requires var (st, tr) := Run(env, SessionEvents(key, hs));
             && SessionTheorems.GeneratedLatest(tr, i) && st.slot != 0x00 && 1 <= |plaintext| <= 32
             && !(&& IsActionBytes(plaintext)
                  && InWindow(tr, tr[i].gen, Xcrypt(env.keystream, st.key, tr[i].iv, plaintext)))
    ensures var (st, tr) := Run(env, SessionEvents(key, hs));
            var frame := SessionTheorems.EncryptFrame(env, st.key, st.slot, tr[i].iv, plaintext);
            var b, after := RunBridge(env, key, hs), RunBridge(env, key, hs + [Handled(Frame(frame), true, true)]);
            var header := [0x01, st.slot, tr[i].iv[0], tr[i].iv[1]];
            && after.lock == LockFor(plaintext, b.lock)
            && match AnswerFor(plaintext, after.lock)
               case None => after.outbox == b.outbox + EventFor(plaintext) + [Notify(header)]
               case Some(payload) =>
                 exists packet ::
                   && after.outbox == b.outbox + EventFor(plaintext) + [Notify(packet)]
                   && |packet| == 4 + |payload| && packet[..4] == header
                   && Xcrypt(env.keystream, st.key, tr[i].iv, packet[4..]) == payload
  {
    var (st, tr) := Run(env, SessionEvents(key, hs));
    var frame := SessionTheorems.EncryptFrame(env, st.key, st.slot, tr[i].iv, plaintext);
    SessionTheorems.FrameBuilt(env, st.key, st.slot, tr[i].iv, plaintext);
    assert frame[4..] == Xcrypt(env.keystream, st.key, tr[i].iv, plaintext);
    SessionTheorems.LatestExact(env, SessionEvents(key, hs), i, frame);
    BridgeDrivesSession(env, key, hs);
    CommandAnswered(env, key, hs, Handled(Frame(frame), true, true));
  }

  /** An IV request, by its bytes, is answered with one packet: 01 00 00 00 and the IV
      that is then pending. */
  lemma RequestAnswered(env: Env, key: Key, hs: seq<Handled>, frame: seq<byte>, decryptOk: bool, encryptOk: bool)
    requires IsRequestBytes(frame)
    ensures var b := RunBridge(env, key, hs);
            var after := RunBridge(env, key, hs + [Handled(Frame(frame), decryptOk, encryptOk)]);
            && HasPending(after.session.phase) && after.session.slot == frame[7] && after.lock == b.lock
            && after.outbox == b.outbox + [Notify([0x01, 0x00, 0x00, 0x00] + after.session.phase.pending.iv)]
  {
    var h := Handled(Frame(frame), decryptOk, encryptOk);
    RunBridgeExtends(env, key, hs, h);
    BridgeDrivesSession(env, key, hs);
    RunExtends(env, SessionEvents(key, hs), SessionEvent(h));
    SessionTheorems.RequestsAreIdempotent(env, SessionEvents(key, hs), frame, decryptOk);
  }

  // ----- Pairing resets ------------------------------------------------------

  /** The key in force: that of the last reset, or the first one. */
  function CurrentKey(key: Key, hs: seq<Handled>): Key {
    if hs == [] then key
    else if hs[|hs| - 1].NewKey? then hs[|hs| - 1].key
    else CurrentKey(key, hs[..|hs| - 1])
  }

  /** Only a frame is ever read, and under the key in force; connects and disconnects
      are boundaries, and two of the calls of a reset clear the session. */
  lemma TurnObserved(env: Env, st: State, h: Handled)
    ensures var o := Observe(env, st, SessionEvent(h));
            && (o.Attempt? ==> h.Handled? && h.event.Frame? && o.key == st.key)
            && (o.Boundary? <==> h.Handled? && !h.event.Frame?)
            && (o.Cleared? <==> h.ClearSession? || h.ForgetKeypad?)
            && (o.Rekeyed? <==> h.NewKey?) && (h.NewKey? ==> o.key == h.key)
  {
    var o := Observe(env, st, SessionEvent(h));
    if h.Handled? && h.event.Frame? {
      assert o.Advertised? || o.Unmatched? || o.Unreadable? || o.Attempt?;
    }
  }

  lemma {:induction false} CurrentKeyUsed(env: Env, key: Key, hs: seq<Handled>)
    ensures RunBridge(env, key, hs).session.key == CurrentKey(key, hs)
  {
    if hs != [] {
      var before := hs[..|hs| - 1];
      CurrentKeyUsed(env, key, before);
      TurnObserved(env, RunBridge(env, key, before).session, hs[|hs| - 1]);
    } else {
      RunExtends(env, [], SetKey(key));
      assert [] + [SetKey(key)] == [SetKey(key)];
    }
  }

  lemma {:induction false} SessionEventAt(key: Key, hs: seq<Handled>, i: nat)
    requires i < |hs|
    ensures SessionEvents(key, hs)[i + 1] == SessionEvent(hs[i])
    ensures SessionEvents(key, hs)[..i + 1] == SessionEvents(key, hs[..i])
    decreases |hs|
  {
    var init := hs[..|hs| - 1];
    if i < |hs| - 1 {
      SessionEventAt(key, init, i);
      assert init[..i] == hs[..i];
      assert SessionEvents(key, hs)[..i + 1] == SessionEvents(key, init)[..i + 1];
    }
  }

  /** What the session observed in turn `i`. */
  lemma ObservedAt(env: Env, key: Key, hs: seq<Handled>, i: nat)
    requires i < |hs|
    ensures Observed(env, key, hs)[i + 1] ==
            Observe(env, RunBridge(env, key, hs[..i]).session, SessionEvent(hs[i]))
  {
    SessionEventAt(key, hs, i);
    SessionTheorems.RunPrefix(env, SessionEvents(key, hs), i + 1);
    BridgeDrivesSession(env, key, hs[..i]);
  }

  lemma TurnMeaning(env: Env, key: Key, hs: seq<Handled>, i: nat)
    requires i < |hs|
    ensures var o := Observed(env, key, hs)[i + 1];
            && (o.Attempt? ==> hs[i].Handled? && hs[i].event.Frame? && o.key == CurrentKey(key, hs[..i]))
            && (o.Boundary? <==> hs[i].Handled? && !hs[i].event.Frame?)
            && (o.Cleared? <==> hs[i].ClearSession? || hs[i].ForgetKeypad?)
  {
    ObservedAt(env, key, hs, i);
    CurrentKeyUsed(env, key, hs[..i]);
    TurnObserved(env, RunBridge(env, key, hs[..i]).session, hs[i]);
  }

  /** No generation outlives a pairing reset: a frame read after it, even one queued
      before it, was decrypted under the key then in force and an IV generated after
      the reset. */
  lemma ResetEndsGenerations(env: Env, key: Key, hs: seq<Handled>, r: nat, j: nat)
    requires r < j < |hs| && hs[r].ClearSession? && Observed(env, key, hs)[j + 1].Attempt?
    ensures var tr := Observed(env, key, hs);
            && tr[j + 1].key == CurrentKey(key, hs[..j])
            && exists i :: r + 1 < i < j + 1 && IssuedAt(tr[i], tr[j + 1].gen, tr[j + 1].iv, tr[j + 1].slot)
  {
    TurnMeaning(env, key, hs, j);
    TurnMeaning(env, key, hs, r);
    SessionTheorems.NoGenerationOutlivesReset(env, SessionEvents(key, hs), r + 1, j + 1);
  }

  // ----- Two tasks -----------------------------------------------------------

  /** The queue the Bluetooth task fills, the batch the main loop has swapped out
      and the bridge; `pushed` and `handled` record the past. */
  datatype System = System(
    queue: seq<QueuedEvent>,
    batch: seq<QueuedEvent>,
    bridge: BridgeState,
    pushed: seq<QueuedEvent>,
    handled: seq<Handled>)

  /** One atomic step: a callback appends under the mutex; the main loop swaps the
      queue out under the mutex once its batch is done, handles one event, or
      between two batches resets the pairing. */
  datatype Step =
    | Push(event: QueuedEvent)
    | Swap
    | HandleNext(decryptOk: bool, encryptOk: bool)
    | ResetPairing(key: Key)

  /** A pairing reset: the new key, then the session and its slot. */
  function ResetCalls(key: Key): seq<Handled> {
    [NewKey(key), ClearSession, ForgetKeypad]
  }

  lemma ResetCallsOneByOne(hs: seq<Handled>, key: Key)
    ensures hs + [NewKey(key)] + [ClearSession] + [ForgetKeypad] == hs + ResetCalls(key)
  {
  }

  function ResetBridge(env: Env, b: BridgeState, key: Key): BridgeState {
    Handle(env, Handle(env, Handle(env, b, NewKey(key)), ClearSession), ForgetKeypad)
  }

  function Start(env: Env, key: Key): System {
    System([], [], RunBridge(env, key, []), [], [])
  }

  function Take(env: Env, s: System, step: Step): System {
    match step
    case Push(ev) => s.(queue := s.queue + [ev], pushed := s.pushed + [ev])
    case Swap => if s.batch == [] then s.(queue := [], batch := s.queue) else s
    case HandleNext(decryptOk, encryptOk) =>
      if s.batch == [] then s
      else
        var h := Handled(s.batch[0], decryptOk, encryptOk);
        s.(batch := s.batch[1..], bridge := Handle(env, s.bridge, h), handled := s.handled + [h])
    case ResetPairing(key) =>
      if s.batch != [] then s
      else s.(bridge := ResetBridge(env, s.bridge, key), handled := s.handled + ResetCalls(key))
  }

  function Schedule(env: Env, key: Key, steps: seq<Step>): System {
    if steps == [] then Start(env, key)
    else Take(env, Schedule(env, key, steps[..|steps| - 1]), steps[|steps| - 1])
  }

  /** The queued events among what was handled. */
  function EventsOf(hs: seq<Handled>): seq<QueuedEvent> {
    if hs == [] then []
    else
      var last := hs[|hs| - 1];
      EventsOf(hs[..|hs| - 1]) + (if last.Handled? then [last.event] else [])
  }

  lemma EventsOfExtend(hs: seq<Handled>, h: Handled)
    ensures EventsOf(hs + [h]) == EventsOf(hs) + (if h.Handled? then [h.event] else [])
  {
    assert (hs + [h])[..|hs|] == hs;
  }

  /** The place of a handled event among all of them. */
  lemma {:induction false} EventsOfAt(hs: seq<Handled>, b: nat)
    requires b < |hs| && hs[b].Handled?
    ensures |EventsOf(hs[..b])| < |EventsOf(hs)| && EventsOf(hs)[|EventsOf(hs[..b])|] == hs[b].event
    decreases |hs|
  {
    var init := hs[..|hs| - 1];
    if b < |init| {
      EventsOfAt(init, b);
      assert init[..b] == hs[..b];
    } else {
      assert hs[..b] == init;
    }
  }

  /** Nothing is lost, repeated or reordered. */
  predicate InOrder(s: System) {
    s.pushed == EventsOf(s.handled) + s.batch + s.queue
  }

  /** The bridge is what the turns one after the other make it. */
  ghost predicate Sequential(env: Env, key: Key, s: System) {
    s.bridge == RunBridge(env, key, s.handled)
  }

  /** The calls of a reset are never torn apart. */
  predicate ResetsWhole(hs: seq<Handled>) {
    forall b :: 0 <= b < |hs| && hs[b].NewKey? ==> b + 2 < |hs| && hs[b + 1].ClearSession? && hs[b + 2].ForgetKeypad?
  }

  lemma ResetExtends(env: Env, key: Key, hs: seq<Handled>, newKey: Key)
    ensures EventsOf(hs + ResetCalls(newKey)) == EventsOf(hs)
    ensures RunBridge(env, key, hs + ResetCalls(newKey)) == ResetBridge(env, RunBridge(env, key, hs), newKey)
  {
    var one := hs + [NewKey(newKey)];
    var two := one + [ClearSession];
    ResetCallsOneByOne(hs, newKey);
    EventsOfExtend(hs, NewKey(newKey));
    EventsOfExtend(one, ClearSession);
    EventsOfExtend(two, ForgetKeypad);
    RunBridgeExtends(env, key, hs, NewKey(newKey));
    RunBridgeExtends(env, key, one, ClearSession);
    RunBridgeExtends(env, key, two, ForgetKeypad);
  }

  lemma PushKeepsOrder(before: seq<QueuedEvent>, queue: seq<QueuedEvent>, ev: QueuedEvent)
    ensures before + (queue + [ev]) == before + queue + [ev]
  {
  }

  lemma SwapKeepsOrder(before: seq<QueuedEvent>, queue: seq<QueuedEvent>)
    ensures before + queue + [] == before + [] + queue
  {
  }

  lemma HandleKeepsOrder(handled: seq<Handled>, batch: seq<QueuedEvent>, h: Handled)
    requires batch != [] && h.Handled? && h.event == batch[0]
    ensures EventsOf(handled + [h]) + batch[1..] == EventsOf(handled) + batch
  {
    EventsOfExtend(handled, h);
    assert [batch[0]] + batch[1..] == batch;
  }

  lemma StepKeepsOrder(env: Env, s: System, step: Step)
    requires InOrder(s)
    ensures InOrder(Take(env, s, step))
  {
    match step
    case Push(ev) => PushKeepsOrder(EventsOf(s.handled) + s.batch, s.queue, ev);
    case Swap => SwapKeepsOrder(EventsOf(s.handled), s.queue);
    case HandleNext(decryptOk, encryptOk) =>
      if s.batch != [] {
        HandleKeepsOrder(s.handled, s.batch, Handled(s.batch[0], decryptOk, encryptOk));
      }
    case ResetPairing(key) => ResetExtends(env, key, s.handled, key);
  }

  lemma StepKeepsSequence(env: Env, key: Key, s: System, step: Step)
    requires Sequential(env, key, s)
    ensures Sequential(env, key, Take(env, s, step))
  {
    if step.HandleNext? && s.batch != [] {
      RunBridgeExtends(env, key, s.handled, Handled(s.batch[0], step.decryptOk, step.encryptOk));
    } else if step.ResetPairing? {
      ResetExtends(env, key, s.handled, step.key);
    }
  }

  lemma StepKeepsResets(env: Env, s: System, step: Step)
    requires ResetsWhole(s.handled)
    ensures ResetsWhole(Take(env, s, step).handled)
  {
  }

  /** Whatever the interleaving, resets included, the handled events followed by the
      batch and the queue are the pushed events, and the bridge is the sequential
      one. */
  lemma {:induction false} QueueRefinesSequence(env: Env, key: Key, steps: seq<Step>)
    ensures var s := Schedule(env, key, steps); InOrder(s) && Sequential(env, key, s) && ResetsWhole(s.handled)
    decreases |steps|
  {
    if steps != [] {
      var before := Schedule(env, key, steps[..|steps| - 1]);
      QueueRefinesSequence(env, key, steps[..|steps| - 1]);
      StepKeepsOrder(env, before, steps[|steps| - 1]);
      StepKeepsSequence(env, key, before, steps[|steps| - 1]);
      StepKeepsResets(env, before, steps[|steps| - 1]);
    }
  }

  lemma ResetState(env: Env, b: BridgeState, key: Key)
    ensures var t := ResetBridge(env, b, key);
            && t.session.key == key && t.session.phase == Idle && t.session.slot == 0x00 && t.session.replyIv == None
            && t.lock == b.lock && t.outbox == b.outbox
  {
  }

  /** A pairing reset between two batches puts the new key in force, leaves no
      generation, slot or pending reply, and touches neither the queue nor what has
      been shown and sent. */
  lemma ResetTakesEffect(env: Env, key: Key, steps: seq<Step>, newKey: Key)
    requires Schedule(env, key, steps).batch == []
    ensures var s, t := Schedule(env, key, steps), Schedule(env, key, steps + [ResetPairing(newKey)]);
            && t.bridge.session.key == newKey && t.bridge.session.phase == Idle
            && t.bridge.session.slot == 0x00 && t.bridge.session.replyIv == None
            && t.bridge.lock == s.bridge.lock && t.bridge.outbox == s.bridge.outbox
            && t.queue == s.queue && t.pushed == s.pushed
  {
    assert (steps + [ResetPairing(newKey)])[..|steps|] == steps;
    ResetState(env, Schedule(env, key, steps).bridge, newKey);
  }

  function TakeAll(env: Env, s: System, steps: seq<Step>): System {
    if steps == [] then s else Take(env, TakeAll(env, s, steps[..|steps| - 1]), steps[|steps| - 1])
  }

  lemma {:induction false} ScheduleSplits(env: Env, key: Key, a: seq<Step>, b: seq<Step>)
    ensures Schedule(env, key, a + b) == TakeAll(env, Schedule(env, key, a), b)
    decreases |b|
  {
    if b == [] {
      assert a + b == a;
    } else {
      var n := |b| - 1;
      ScheduleSplits(env, key, a, b[..n]);
      assert (a + b)[..|a + b| - 1] == a + b[..n];
    }
  }

  lemma {:induction false} BatchHandled(env: Env, s: System, steps: seq<Step>)
    requires |steps| <= |s.batch| && forall i :: 0 <= i < |steps| ==> steps[i].HandleNext?
    ensures var t := TakeAll(env, s, steps);
            t.batch == s.batch[|steps|..] && t.queue == s.queue && t.pushed == s.pushed
    decreases |steps|
  {
    if steps != [] {
      BatchHandled(env, s, steps[..|steps| - 1]);
    }
  }

  lemma SwapTakesAll(env: Env, key: Key, before: seq<Step>)
    requires Schedule(env, key, before).batch == []
    ensures var s, t := Schedule(env, key, before), Schedule(env, key, before + [Swap]);
            t.batch == s.queue && t.queue == [] && t.pushed == s.pushed
  {
    assert (before + [Swap])[..|before|] == before;
  }

  lemma NothingWaiting(s: System)
    requires InOrder(s) && s.batch == [] && s.queue == []
    ensures EventsOf(s.handled) == s.pushed
  {
  }

  /** A swap and one turn for each event it took leave nothing behind: everything
      pushed so far has been handled. */
  lemma PassHandlesAll(env: Env, key: Key, before: seq<Step>, turns: seq<Step>)
    requires Schedule(env, key, before).batch == [] && |turns| == |Schedule(env, key, before).queue|
    requires forall i :: 0 <= i < |turns| ==> turns[i].HandleNext?
    ensures var t := Schedule(env, key, before + [Swap] + turns);
            && t.batch == [] && t.queue == [] && t.pushed == Schedule(env, key, before).pushed
            && EventsOf(t.handled) == t.pushed
  {
    var swapped := before + [Swap];
    SwapTakesAll(env, key, before);
    ScheduleSplits(env, key, swapped, turns);
    BatchHandled(env, Schedule(env, key, swapped), turns);
    QueueRefinesSequence(env, key, swapped + turns);
    NothingWaiting(Schedule(env, key, swapped + turns));
  }

  lemma LateActionHandledInOneConnection(env: Env, key: Key, hs: seq<Handled>, k: nat, b: nat, j: nat)
    requires k < b < j < |hs| && ResetsWhole(hs)
    requires var tr := Observed(env, key, hs);
             SideEffect(tr[j + 1]) && NewIv(tr[k + 1]) && tr[k + 1].gen == tr[j + 1].gen + 1
    ensures hs[b].Handled? && hs[b].event.Frame?
  {
    var events := SessionEvents(key, hs);
    SessionTheorems.LateActionInOneConnection(env, events, k + 1, b + 1, j + 1);
    TurnMeaning(env, key, hs, b);
    if hs[b].NewKey? {
      TurnMeaning(env, key, hs, b + 1);
      TurnMeaning(env, key, hs, j);
      SessionTheorems.LateActionInOneConnection(env, events, k + 1, b + 2, j + 1);
    }
  }

  /** In no interleaving does a late action cross a connect, a disconnect or a pairing
      reset: between the frame that drew the successor's IV and the accepted frame
      under the superseded generation the main loop handled only frames, which are
      the ones pushed there. */
  lemma LateActionCrossesNoConnection(env: Env, key: Key, steps: seq<Step>, k: nat, b: nat, j: nat)
    requires var s := Schedule(env, key, steps);
             k < b < j < |s.handled|
    requires var tr := Observed(env, key, Schedule(env, key, steps).handled);
             SideEffect(tr[j + 1]) && NewIv(tr[k + 1]) && tr[k + 1].gen == tr[j + 1].gen + 1
    ensures var s := Schedule(env, key, steps);
            var at := |EventsOf(s.handled[..b])|;
            && s.handled[b].Handled? && s.handled[b].event.Frame?
            && at < |s.pushed| && s.pushed[at] == s.handled[b].event
  {
    var s := Schedule(env, key, steps);
    QueueRefinesSequence(env, key, steps);
    LateActionHandledInOneConnection(env, key, s.handled, k, b, j);
    EventsOfAt(s.handled, b);
  }
}
