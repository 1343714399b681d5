/** The bridge's receive path as the program runs it: callbacks that only queue,
    and a main loop that swaps the queue out and handles it event by event. */
module Bridge {
  import opened Bytes
  import opened AesCtr
  import opened LockProtocol
  import opened SessionSpec
  import opened BridgeSpec
  import LS = LockSession

  class Bridge {
    const session: LS.LockSession
    ghost const key: Key

    var rxQueue: seq<QueuedEvent>
    var lockState: LockState
    var outbox: seq<Output>

    ghost var pushed: seq<QueuedEvent>
    ghost var handled: seq<Handled>

    ghost function Spec(): BridgeState
      reads this, session.rng
    {
      RunBridge(session.Environment(), key, handled)
    }

    /** The bridge is what handling the past events in order makes it. */
    ghost predicate Tracks()
      reads this, session, session.rng
    {
      && session.Valid() && session.events == SessionEvents(key, handled)
      && lockState == Spec().lock && outbox == Spec().outbox
    }

    /** Every pushed event was handled, is in the batch or is in the queue. */
    ghost predicate Keeps(batch: seq<QueuedEvent>)
      reads this
    {
      pushed == EventsOf(handled) + batch + rxQueue
    }

    constructor (keystream: Keystream, rng: LS.Rng, key: Key)
      requires rng.drawn == 0
      ensures Tracks() && Keeps([]) && rxQueue == [] && pushed == [] && handled == []
      ensures lockState == Locked && outbox == []
      ensures fresh(session) && session.rng == rng
    {
      var s := new LS.LockSession(keystream, rng);
      s.SetAesKey(key);
      session := s;
      this.key := key;
      rxQueue, lockState, outbox := [], Locked, [];
      pushed, handled := [], [];
    }

    /** A callback may come at any time, also while the main loop is handling a batch. */
    method PushConnect(ghost batch: seq<QueuedEvent>)
      requires Tracks() && Keeps(batch)
      modifies this`rxQueue, this`pushed
      ensures Tracks() && Keeps(batch)
      ensures rxQueue == old(rxQueue) + [Connect] && pushed == old(pushed) + [Connect]
    {
      rxQueue := rxQueue + [Connect];
      pushed := pushed + [Connect];
    }

    method PushDisconnect(ghost batch: seq<QueuedEvent>)
      requires Tracks() && Keeps(batch)
      modifies this`rxQueue, this`pushed
      ensures Tracks() && Keeps(batch)
      ensures rxQueue == old(rxQueue) + [Disconnect] && pushed == old(pushed) + [Disconnect]
    {
      rxQueue := rxQueue + [Disconnect];
      pushed := pushed + [Disconnect];
    }

    method PushRx(frame: seq<byte>, ghost batch: seq<QueuedEvent>)
      requires Tracks() && Keeps(batch)
      modifies this`rxQueue, this`pushed
      ensures Tracks() && Keeps(batch)
      ensures rxQueue == old(rxQueue) + [Frame(frame)] && pushed == old(pushed) + [Frame(frame)]
    {
      rxQueue := rxQueue + [Frame(frame)];
      pushed := pushed + [Frame(frame)];
    }

    /** A call of a reset changes the session and nothing else. */
    lemma CallSession(h: Handled)
      requires Tracks() && !h.Handled?
      ensures SessionEvents(key, handled + [h]) == session.events + [SessionEvent(h)]
      ensures EventsOf(handled + [h]) == EventsOf(handled)
      ensures var after := RunBridge(session.Environment(), key, handled + [h]);
              after.lock == lockState && after.outbox == outbox
    {
      SessionEventsExtend(key, handled, h);
      EventsOfExtend(handled, h);
      RunBridgeExtends(session.Environment(), key, handled, h);
      TurnObserved(session.Environment(), Spec().session, h);
    }

    method CallSetKey(newKey: Key)
      requires Tracks() && Keeps([])
      modifies this`handled, session`aesKey, session`events
      ensures Tracks() && Keeps([]) && handled == old(handled) + [NewKey(newKey)]
    {
      CallSession(NewKey(newKey));
      session.SetAesKey(newKey);
      handled := handled + [NewKey(newKey)];
    }

    method CallReset()
      requires Tracks() && Keeps([])
      modifies this`handled, session
      ensures Tracks() && Keeps([]) && handled == old(handled) + [ClearSession]
      ensures !session.active.valid && !session.pending.valid && !session.retired.valid && !session.responseIvValid
    {
      CallSession(ClearSession);
      session.Reset();
      handled := handled + [ClearSession];
    }

    method CallForgetSlot()
      requires Tracks() && Keeps([])
      requires !session.active.valid && !session.pending.valid && !session.retired.valid && !session.responseIvValid
      modifies this`handled, session`slotId, session`events
      ensures Tracks() && Keeps([]) && handled == old(handled) + [ForgetKeypad]
    {
      CallSession(ForgetKeypad);
      session.ForgetSlot();
      handled := handled + [ForgetKeypad];
    }

    /** Rotates the key and starts over: no session survives. Nothing happens when the
        new key cannot be imported. What is queued stays queued. */
    method ResetPairing(newKey: Key, imported: bool)
      requires Tracks() && Keeps([])
      modifies this`handled, session
      ensures Tracks() && Keeps([])
      ensures handled == old(handled) + if imported then [NewKey(newKey), ClearSession, ForgetKeypad] else []
    {
      if !imported {
        return;
      }
      ResetCallsOneByOne(handled, newKey);
      CallSetKey(newKey);
      CallReset();
      CallForgetSlot();
    }

    /** Swaps the queue out; callbacks go on pushing to the emptied one. */
    method TakeBatch() returns (batch: seq<QueuedEvent>)
      requires Tracks() && Keeps([])
      modifies this`rxQueue
      ensures Tracks() && Keeps(batch) && batch == old(rxQueue) && rxQueue == []
    {
      batch := rxQueue;
      rxQueue := [];
    }

    lemma NextOf(batch: seq<QueuedEvent>, i: nat)
      requires i < |batch|
      ensures batch[i..] == [batch[i]] + batch[i + 1..]
    {
    }

    /** What an encrypted answer puts in the outbox: one packet, or nothing. */
    ghost function Encrypted(header: LS.FrameHeader, payload: seq<byte>, encryptOk: bool): seq<Output>
      reads this, session, session.rng
    {
      match Reply(session.Environment(), session.Abstract(), header.keyId, header.seqA, header.seqB, payload, encryptOk)
      case None => []
      case Some(packet) => [Notify(packet)]
    }

    method SendEncryptedResponse(header: LS.FrameHeader, payload: seq<byte>, encryptOk: bool)
      requires session.Valid()
      modifies this`outbox
      ensures outbox == old(outbox) + Encrypted(header, payload, encryptOk)
    {
      var packet, n := session.EncryptResponse(header, payload, encryptOk);
      if n == 0 {
        return;
      }
      outbox := outbox + [Notify(packet)];
    }

    method HandleStatePoll(header: LS.FrameHeader, encryptOk: bool)
      requires session.Valid()
      modifies this`outbox
      ensures outbox == old(outbox) + Encrypted(header, [StateByte(lockState)] + STATE_PAYLOAD_TAIL, encryptOk)
    {
      var statePayload := [StateByte(lockState)];
      statePayload := statePayload + STATE_PAYLOAD_TAIL;
      SendEncryptedResponse(header, statePayload, encryptOk);
    }

    method SendAck(header: LS.FrameHeader)
      modifies this`outbox
      ensures outbox == old(outbox) + [Notify([0x01, header.keyId, header.seqA, header.seqB])]
    {
      outbox := outbox + [Notify([0x01, header.keyId, header.seqA, header.seqB])];
    }

    method SendLocalResponse(header: LS.FrameHeader, command: DecodedCommand, encryptOk: bool, ghost o: Observation)
      requires session.Valid() && o.Attempt?
      requires command == o.command && header == LS.FrameHeader(o.slot, o.iv[0], o.iv[1])
      modifies this`outbox
      ensures outbox == old(outbox) + Answer(session.Environment(), session.Abstract(), o, lockState, encryptOk)
    {
      match command.kind {
        case Lock => SendEncryptedResponse(header, RESPONSE_LOCK, encryptOk);
        case Unlock => SendEncryptedResponse(header, RESPONSE_UNLOCK, encryptOk);
        case StatePoll => HandleStatePoll(header, encryptOk);
        case Doorbell => SendAck(header);
        case Unknown => SendAck(header);
      }
    }

    method HandleCommand(header: LS.FrameHeader, command: DecodedCommand, encryptOk: bool, ghost o: Observation)
      requires session.Valid() && o.Attempt? && o.accepted
      requires command == o.command && header == LS.FrameHeader(o.slot, o.iv[0], o.iv[1])
      modifies this`lockState, this`outbox
      ensures lockState == LockAfter(old(lockState), o)
      ensures outbox == old(outbox) + Published(command) +
                Answer(session.Environment(), session.Abstract(), o, lockState, encryptOk)
    {
      match command.kind {
        case Lock =>
          lockState := Locked;
          outbox := outbox + [LockEvent];
        case Unlock =>
          lockState := Unlocked;
          outbox := outbox + [UnlockEvent(command.means, command.index)];
        case StatePoll =>
        case Doorbell =>
          outbox := outbox + [DoorbellEvent];
        case Unknown =>
      }
      SendLocalResponse(header, command, encryptOk, o);
    }

    method Respond(action: LS.Action, encryptOk: bool, ghost o: Observation)
      requires session.Valid() && session.Exposes(o, action)
      modifies this`lockState, this`outbox
      ensures lockState == LockAfter(old(lockState), o)
      ensures outbox == old(outbox) + Outputs(session.Environment(), session.Abstract(), o, lockState, encryptOk)
    {
      match action {
        case SendIv =>
          outbox := outbox + [Notify(session.ivResponse)];
        case Command =>
          HandleCommand(session.header, session.command, encryptOk, o);
        case NoAction =>
      }
    }

    method OnRxFrame(frame: seq<byte>, decryptOk: bool, encryptOk: bool, ghost b: BridgeState, ghost o: Observation)
      requires session.Valid() && b.session == session.Abstract() && lockState == b.lock && outbox == b.outbox
      requires o == Observe(session.Environment(), b.session, Rx(frame, decryptOk))
      modifies this`lockState, this`outbox, session, session.rng
      ensures session.Valid() && session.events == old(session.events) + [Rx(frame, decryptOk)]
      ensures lockState == LockAfter(b.lock, o)
      ensures outbox == b.outbox +
                Outputs(session.Environment(), Apply(b.session, o), o, LockAfter(b.lock, o), encryptOk)
    {
      RunExtends(session.Environment(), session.events, Rx(frame, decryptOk));
      var action := session.ProcessFrame(frame, decryptOk);
      assert session.Exposes(o, action) && session.Abstract() == Apply(b.session, o);
      Respond(action, encryptOk, o);
    }

    method Dispatch(ev: QueuedEvent, decryptOk: bool, encryptOk: bool, ghost b: BridgeState)
      requires session.Valid() && b.session == session.Abstract() && lockState == b.lock && outbox == b.outbox
      modifies this`lockState, this`outbox, session, session.rng
      ensures session.Valid()
      ensures session.events == old(session.events) + [SessionEvent(Handled(ev, decryptOk, encryptOk))]
      ensures var after := Handle(session.Environment(), b, Handled(ev, decryptOk, encryptOk));
              lockState == after.lock && outbox == after.outbox
    {
      match ev {
        case Connect =>
          session.ResetTransport();
        case Disconnect =>
          session.ResetTransport();
        case Frame(bytes) =>
          OnRxFrame(bytes, decryptOk, encryptOk, b, Observe(session.Environment(), b.session, Rx(bytes, decryptOk)));
      }
    }

    method HandleEvent(ev: QueuedEvent, decryptOk: bool, encryptOk: bool)
      requires Tracks()
      modifies this`lockState, this`outbox, this`handled, session, session.rng
      ensures Tracks() && handled == old(handled) + [Handled(ev, decryptOk, encryptOk)]
    {
      ghost var h := Handled(ev, decryptOk, encryptOk);
      BridgeDrivesSession(session.Environment(), key, handled);
      SessionEventsExtend(key, handled, h);
      RunBridgeExtends(session.Environment(), key, handled, h);
      Dispatch(ev, decryptOk, encryptOk, Spec());
      handled := handled + [h];
    }

    method HandleNext(ev: QueuedEvent, cipher: (bool, bool),
                      ghost rest: seq<QueuedEvent>, ghost batch: seq<QueuedEvent>)
      requires Tracks() && batch == [ev] + rest && Keeps(batch)
      modifies this`lockState, this`outbox, this`handled, session, session.rng
      ensures Tracks() && Keeps(rest)
      ensures old(handled) <= handled
    {
      EventsOfExtend(handled, Handled(ev, cipher.0, cipher.1));
      HandleEvent(ev, cipher.0, cipher.1);
    }

    /** The queue holds exactly what was pushed after `before`. */
    ghost predicate QueuedSince(before: seq<QueuedEvent>)
      reads this
    {
      pushed == before + rxQueue
    }

    /** What the callbacks push while one event is being handled. */
    method Arrive(events: seq<QueuedEvent>, ghost batch: seq<QueuedEvent>, ghost before: seq<QueuedEvent>)
      requires Tracks() && Keeps(batch) && QueuedSince(before)
      modifies this`rxQueue, this`pushed
      ensures Tracks() && Keeps(batch) && QueuedSince(before)
      ensures pushed == old(pushed) + events
    {
      assert before + rxQueue + events == before + (rxQueue + events);
      rxQueue := rxQueue + events;
      pushed := pushed + events;
    }

    lemma PassBegins()
      requires rxQueue == []
      ensures QueuedSince(pushed)
    {
    }

    lemma PassDone(before: seq<QueuedEvent>)
      requires Keeps([]) && QueuedSince(before)
      ensures EventsOf(handled) == before
    {
      assert EventsOf(handled) == pushed[..|pushed| - |rxQueue|] == before;
    }

    /** One pass of the main loop: it handles exactly the events queued when it began, in
        order, and leaves those that arrive meanwhile. `cipher` says for each event
        whether the decryption and the encryption it may need succeed. */
    method Drain(cipher: nat -> (bool, bool), arrivals: nat -> seq<QueuedEvent>)
      requires Tracks() && Keeps([])
      modifies this`rxQueue, this`pushed, this`lockState, this`outbox, this`handled, session, session.rng
      ensures Tracks() && Keeps([]) && QueuedSince(old(pushed))
      ensures old(handled) <= handled && EventsOf(handled) == old(pushed)
    {
      var batch := TakeBatch();
      PassBegins();
      for i := 0 to |batch|
        invariant Tracks() && Keeps(batch[i..]) && QueuedSince(old(pushed))
        invariant old(handled) <= handled
      {
        NextOf(batch, i);
        Arrive(arrivals(i), batch[i..], old(pushed));
        HandleNext(batch[i], cipher(i), batch[i + 1..], batch[i..]);
      }
      PassDone(old(pushed));
    }
  }
}
