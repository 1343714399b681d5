/**
 The session as the program keeps it: three context records with validity bits,
 one-shot flags and replay rings, updated in place. Every method is proved to
 move the session exactly as the abstract machine of `SessionSpec` does.
 */
module LockSession {
  import opened Bytes
  import opened AesCtr
  import opened LockProtocol
  import opened SessionSpec
  import opened SessionTrace
  import opened SessionInvariant
  import opened ReplayRing
  import SessionTheorems

  datatype FrameHeader = FrameHeader(keyId: byte, seqA: byte, seqB: byte)

  const NO_HEADER := FrameHeader(0, 0, 0)
  const ZERO_IV: Iv := seq(16, _ => 0)

  datatype Action = NoAction | SendIv | Command

  datatype CryptoContext = CryptoContext(
    iv: Iv,
    history: seq<ReplayEntry>,
    head: nat,
    lateActionAllowed: bool,
    handoffPollSeen: bool,
    valid: bool)

  const EMPTY_CONTEXT := CryptoContext(ZERO_IV, EMPTY_HISTORY, 0, false, false, false)

  /** The hardware random generator: a fixed but arbitrary stream of words. */
  class Rng {
    const words: nat -> Word
    var drawn: nat

    constructor (words: nat -> Word)
      ensures this.words == words && drawn == 0
    {
      this.words := words;
      drawn := 0;
    }

    method Next() returns (w: Word)
      modifies this
      ensures w == words(old(drawn)) && drawn == old(drawn) + 1
    {
      w := words(drawn);
      drawn := drawn + 1;
    }
  }

  // ----- Records and phases --------------------------------------------------

  ghost predicate Keeps(c: CryptoContext, g: Generation) {
    c.valid && c.iv == g.iv && RingHolds(c.history, c.head, g.log)
  }

  function AllowanceOf(c: CryptoContext): Allowance {
    if !c.lateActionAllowed then Closed else if c.handoffPollSeen then OnePollSeen else Untouched
  }

  /** The three records stand for one phase of the abstract machine. In
      particular pending and retired are never both valid, and a retired record
      comes with a valid active one and an unspent allowance. */
  ghost predicate Implements(active: CryptoContext, pending: CryptoContext, retired: CryptoContext, phase: Phase) {
    match phase
    case Idle => !active.valid && !pending.valid && !retired.valid
    case First(p) => !active.valid && Keeps(pending, p) && !retired.valid
    case Steady(a) => Keeps(active, a) && !active.lateActionAllowed && !pending.valid && !retired.valid
    case Handoff(a, p, allowance) =>
      Keeps(active, a) && AllowanceOf(active) == allowance && Keeps(pending, p) && !retired.valid
    case Overlap(a, r) =>
      Keeps(active, a) && !active.lateActionAllowed && !pending.valid && Keeps(retired, r) && retired.lateActionAllowed
  }

  /** What the session relies on about its own history. */
  predicate Distinct(phase: Phase) {
    match phase
    case First(p) => p.log == []
    case Handoff(a, p, _) => p.log == [] && a.id != p.id && !SameSeq(a.iv, p.iv)
    case Overlap(a, r) => a.id != r.id && !SameSeq(a.iv, r.iv)
    case _ => true
  }

  lemma ReachableDistinct(env: Env, events: seq<Event>)
    ensures Distinct(Run(env, events).0.phase)
  {
    var phase := Run(env, events).0.phase;
    assert PhaseFits(Run(env, events).0, Summarize(Run(env, events).1)) by {
      RunInv(env, events);
    }
    match phase
    case Handoff(a, p, _) => SessionTheorems.HeldDiffer(env, events, a, p);
    case Overlap(a, r) => SessionTheorems.HeldDiffer(env, events, a, r);
    case _ =>
  }

  /** The IV picked after `k` collisions, when the next fill is the one kept. */
  lemma {:induction false} PickIvAfter(fill: nat -> Iv, avoid: Option<Iv>, from: nat, k: nat)
    requires from <= k <= IV_RETRIES
    requires forall j :: from <= j < k ==> Collides(fill(j), avoid)
    requires Collides(fill(k), avoid) ==> k == IV_RETRIES
    ensures PickIv(fill, avoid, from) == (if Collides(fill(k), avoid) then FlipSeq(fill(k)) else fill(k), k + 1)
    decreases k - from
  {
    if from < k {
      PickIvAfter(fill, avoid, from + 1, k);
    }
  }

  /** The pending IV or, when none is pending, the active one. */
  function LastAdvertised(phase: Phase): Option<Iv> {
    match phase
    case Idle => None
    case First(p) => Some(p.iv)
    case Steady(a) => Some(a.iv)
    case Handoff(_, p, _) => Some(p.iv)
    case Overlap(a, _) => Some(a.iv)
  }

  lemma FramesKeepAdvertised(phase: Phase, o: Observation)
    requires !o.Advertised? && !o.Cleared?
    ensures LastAdvertised(NextPhase(phase, o)) == LastAdvertised(phase)
  {
  }

  class LockSession {
    const keystream: Keystream
    const rng: Rng

    var aesKey: Key
    var slotId: byte
    var active: CryptoContext
    var pending: CryptoContext
    var retired: CryptoContext
    var ivResponse: seq<byte>
    var responseIv: Iv
    var responseIvValid: bool
    var header: FrameHeader
    var command: DecodedCommand
    var plaintext: seq<byte>  // a 32-byte buffer
    var plaintextSize: nat

    /** Everything that happened to the session since it was created. */
    ghost var events: seq<Event>

    function Environment(): Env
      reads rng
    {
      Env(keystream, rng.words)
    }

    ghost function Abstract(): State
      reads this, rng
    {
      Run(Environment(), events).0
    }

    ghost function Observed(): Trace
      reads this, rng
    {
      Run(Environment(), events).1
    }

    /** The response buffer holds the IV last advertised. */
    ghost predicate IvResponseFits(phase: Phase)
      reads this
    {
      && |ivResponse| == 20 && ivResponse[..4] == [0x01, 0x00, 0x00, 0x00]
      && (LastAdvertised(phase).Some? ==> ivResponse[4..] == LastAdvertised(phase).value)
    }

    ghost predicate Represents(st: State)
      reads this, rng
    {
      && aesKey == st.key && slotId == st.slot && rng.drawn == st.drawn
      && Implements(active, pending, retired, st.phase)
      && responseIvValid == st.replyIv.Some? && (responseIvValid ==> responseIv == st.replyIv.value)
      && |plaintext| == MAX_PAYLOAD && plaintextSize <= MAX_PAYLOAD
      && IvResponseFits(st.phase)
    }

    ghost predicate Valid()
      reads this, rng
    {
      Represents(Abstract())
    }

    constructor (keystream: Keystream, rng: Rng)
      requires rng.drawn == 0
      ensures Valid() && events == [] && this.keystream == keystream && this.rng == rng
    {
      this.keystream := keystream;
      this.rng := rng;
      aesKey, slotId := 0, 0x00;
      active, pending, retired := EMPTY_CONTEXT, EMPTY_CONTEXT, EMPTY_CONTEXT;
      ivResponse := [0x01, 0x00, 0x00, 0x00] + seq(16, _ => 0);
      responseIv, responseIvValid := ZERO_IV, false;
      header, command := NO_HEADER, NO_COMMAND;
      plaintext, plaintextSize := BLANK, 0;
      events := [];
    }

    method SetAesKey(key: Key)
      requires Valid()
      modifies this`aesKey, this`events
      ensures Valid() && events == old(events) + [SetKey(key)]
    {
      RunExtends(Environment(), events, SetKey(key));
      aesKey := key;
      events := events + [SetKey(key)];
    }

    method ClearTransient()
      modifies this`plaintextSize, this`header, this`command, this`responseIvValid
      ensures plaintextSize == 0 && header == NO_HEADER && command == NO_COMMAND && !responseIvValid
    {
      plaintextSize := 0;
      header := NO_HEADER;
      command := NO_COMMAND;
      responseIvValid := false;
    }

    method DropTransport()
      modifies this`plaintextSize, this`header, this`command, this`responseIvValid, this`retired, this`active
      ensures plaintextSize == 0 && header == NO_HEADER && command == NO_COMMAND && !responseIvValid
      ensures retired == EMPTY_CONTEXT
      ensures active == old(active).(lateActionAllowed := false, handoffPollSeen := false)
    {
      ClearTransient();
      retired := EMPTY_CONTEXT;
      active := active.(lateActionAllowed := false);
      active := active.(handoffPollSeen := false);
    }

    /** A connection boundary ends the hand-off and keeps the generations. */
    method ResetTransport()
      requires Valid()
      modifies this
      ensures Valid() && events == old(events) + [TransportReset]
      ensures plaintextSize == 0 && !responseIvValid
      ensures pending == old(pending)
      ensures active == old(active).(lateActionAllowed := false, handoffPollSeen := false)
    {
      RunExtends(Environment(), events, TransportReset);
      DropTransport();
      events := events + [TransportReset];
    }

    method ClearContexts()
      modifies this`plaintextSize, this`header, this`command, this`responseIvValid
      modifies this`active, this`pending, this`retired
      ensures plaintextSize == 0 && header == NO_HEADER && command == NO_COMMAND && !responseIvValid
      ensures active == pending == retired == EMPTY_CONTEXT
    {
      active := EMPTY_CONTEXT;
      pending := EMPTY_CONTEXT;
      retired := EMPTY_CONTEXT;
      DropTransport();
    }

    method Reset()
      requires Valid()
      modifies this
      ensures Valid() && events == old(events) + [SessionSpec.Reset]
      ensures !active.valid && !pending.valid && !retired.valid && !responseIvValid && slotId == old(slotId)
    {
      RunExtends(Environment(), events, SessionSpec.Reset);
      ClearContexts();
      events := events + [SessionSpec.Reset];
    }

    /** Called after `Reset`: the contexts are not bound to the slot. */
    method ForgetSlot()
      requires Valid() && !active.valid && !pending.valid && !retired.valid && !responseIvValid
      modifies this`slotId, this`events
      ensures Valid() && events == old(events) + [SessionSpec.ForgetSlot] && slotId == 0x00
    {
      RunExtends(Environment(), events, SessionSpec.ForgetSlot);
      slotId := 0x00;
      events := events + [SessionSpec.ForgetSlot];
    }

    // ----- IV negotiation ----------------------------------------------------

    /** The k-th fill of a generation that began at word `start`. */
    method FillIv(ghost start: nat, ghost k: nat)
      requires rng.drawn == start + 4 * k
      modifies this`pending, rng
      ensures pending == old(pending).(iv := Fills(rng.words, start)(k))
      ensures rng.drawn == old(rng.drawn) + 4
    {
      var iv := pending.iv;
      var i := 0;
      ghost var target := Candidate(rng.words, rng.drawn);
      while i < 16
        invariant i in {0, 4, 8, 12, 16} && |iv| == 16
        invariant rng.drawn == old(rng.drawn) + i / 4
        invariant iv[..i] == target[..i]
        invariant pending == old(pending)
      {
        var word := rng.Next();
        iv := iv[..i] + word + iv[i + 4..];
        i := i + 4;
      }
      pending := pending.(iv := iv);
    }

    ghost function Avoided(): Option<Iv>
      reads this`active
    {
      if active.valid then Some(active.iv) else None
    }

    /** Draws IVs until one does not share the active sequence bytes, at most
        five times; `k` fills collided before the one kept. */
    method DrawIv() returns (ghost k: nat)
      requires !pending.valid
      modifies this`pending, rng
      ensures var fill := Fills(rng.words, old(rng.drawn));
              && k <= IV_RETRIES && rng.drawn == old(rng.drawn) + 4 * (k + 1)
              && pending == old(pending).(iv := fill(k))
              && (forall j :: 0 <= j < k ==> Collides(fill(j), Avoided()))
              && (Collides(fill(k), Avoided()) ==> k == IV_RETRIES)
    {
      ghost var start, fill, avoid := rng.drawn, Fills(rng.words, rng.drawn), Avoided();
      FillIv(start, 0);
      var retries := 0;
      while active.valid && pending.iv[0] == active.iv[0] && pending.iv[1] == active.iv[1] && retries < IV_RETRIES
        invariant retries <= IV_RETRIES && rng.drawn == start + 4 * (retries + 1)
        invariant pending == old(pending).(iv := fill(retries))
        invariant forall j :: 0 <= j < retries ==> Collides(fill(j), avoid)
      {
        assert Collides(pending.iv, avoid);
        retries := retries + 1;
        FillIv(start, retries);
      }
      k := retries;
    }

    method GeneratePendingIv()
      requires pending == EMPTY_CONTEXT
      modifies this`pending, rng
      ensures var (iv, fills) := PickIv(Fills(rng.words, old(rng.drawn)), Avoided(), 0);
              pending == EMPTY_CONTEXT.(iv := iv, valid := true) && rng.drawn == old(rng.drawn) + 4 * fills
    {
      ghost var fill := Fills(rng.words, rng.drawn);
      ghost var k := DrawIv();
      PickIvAfter(fill, Avoided(), 0, k);
      if active.valid && pending.iv[0] == active.iv[0] && pending.iv[1] == active.iv[1] {
        pending := pending.(iv := pending.iv[1 := pending.iv[1] ^ 0x01]);
      }
      pending := pending.(valid := true);
    }

    /** No record has changed and no random word has been drawn. */
    ghost predicate KeepsRecords(a: CryptoContext, p: CryptoContext, r: CryptoContext, drawn: nat)
      reads this, rng
    {
      active == a && pending == p && retired == r && rng.drawn == drawn
    }

    /** The pending IV is offered again, and nothing else happens; or a new one is
        generated, and the hand-off armed if there is a generation to supersede. */
    method EnsurePendingIv(ghost st: State)
      requires rng.drawn == st.drawn && |ivResponse| == 20 && ivResponse[..4] == [0x01, 0x00, 0x00, 0x00]
      requires Implements(active, pending, retired, if slotId != st.slot then Idle else st.phase)
      modifies this`active, this`pending, this`retired, this`ivResponse, rng
      ensures var o := Advertise(Environment(), st, slotId);
              && Implements(active, pending, retired, NextPhase(st.phase, o))
              && rng.drawn == st.drawn + o.words
              && ivResponse == [0x01, 0x00, 0x00, 0x00] + o.iv
      ensures old(pending.valid) ==> KeepsRecords(old(active), old(pending), old(retired), old(rng.drawn))
    {
      if pending.valid {
        ivResponse := ivResponse[..4] + pending.iv;
        return;
      }
      retired := EMPTY_CONTEXT;
      if active.valid && slotId == VISION_KEY_SLOT {
        active := active.(lateActionAllowed := true);
        active := active.(handoffPollSeen := false);
      } else if active.valid {
        active := active.(lateActionAllowed := false);
        active := active.(handoffPollSeen := false);
      }
      pending := EMPTY_CONTEXT;
      GeneratePendingIv();
      ivResponse := ivResponse[..4] + pending.iv;
      EmptyRing();
    }

    // ----- Receiving ---------------------------------------------------------

    predicate SeqMatches(context: CryptoContext, h: FrameHeader) {
      context.valid && h.seqA == context.iv[0] && h.seqB == context.iv[1]
    }

    /** What a caller sees of the frame just processed. */
    ghost predicate Exposes(o: Observation, action: Action)
      reads this
    {
      && action == (if o.Advertised? then SendIv else if Accepted(o) then Command else NoAction)
      && (o.Advertised? ==> ivResponse == [0x01, 0x00, 0x00, 0x00] + o.iv)
      && (if Accepted(o) then
            && header == FrameHeader(o.slot, o.iv[0], o.iv[1]) && command == o.command
            && plaintextSize <= |plaintext| && plaintext[..plaintextSize] == o.plaintext
            && responseIvValid && responseIv == o.iv
          else
            plaintextSize == 0 && !responseIvValid)
    }

    method HandleIvRequest(requestedSlot: byte, ghost st: State)
      requires Represents(st.(replyIv := None)) && plaintextSize == 0
      modifies this`slotId, this`active, this`pending, this`retired, this`ivResponse, rng
      ensures var o := Advertise(Environment(), st, requestedSlot);
              Represents(Apply(st, o)) && Exposes(o, SendIv)
      ensures requestedSlot == old(slotId) && old(pending.valid) ==>
                KeepsRecords(old(active), old(pending), old(retired), old(rng.drawn))
    {
      if requestedSlot != slotId {
        active := EMPTY_CONTEXT;
        pending := EMPTY_CONTEXT;
        retired := EMPTY_CONTEXT;
        slotId := requestedSlot;
      }
      EnsurePendingIv(st);
    }

    /** The three tests have singled out the record that keeps generation `g`. */
    ghost predicate Selected(phase: Phase, g: Generation, usesPending: bool, usesActive: bool, usesRetired: bool) {
      match phase
      case Idle => false
      case First(p) => g == p && usesPending && !usesActive && !usesRetired
      case Steady(a) => g == a && !usesPending && usesActive && !usesRetired
      case Handoff(a, p, _) => g == (if usesPending then p else a) && usesActive == !usesPending && !usesRetired
      case Overlap(a, r) => g == (if usesActive then a else r) && !usesPending && usesRetired == !usesActive
    }

    /** The phase once a frame of the current generation has closed the overlap. */
    ghost function AfterSelection(phase: Phase, usesActive: bool): Phase {
      if usesActive && phase.Overlap? then Steady(phase.active) else phase
    }

    /** The session between the choice of a record and the end of a frame. */
    ghost predicate Working(st: State, g: Generation, usesPending: bool, usesActive: bool, usesRetired: bool)
      reads this, rng
    {
      && aesKey == st.key && slotId == st.slot && rng.drawn == st.drawn
      && !responseIvValid && |plaintext| == MAX_PAYLOAD && plaintextSize == 0 && IvResponseFits(st.phase)
      && Distinct(st.phase) && Selected(st.phase, g, usesPending, usesActive, usesRetired)
      && Implements(active, pending, retired, AfterSelection(st.phase, usesActive))
      && header == FrameHeader(slotId, g.iv[0], g.iv[1])
    }

    /** The session after a frame that was observed as `o`. */
    ghost predicate Finished(st: State, o: Observation)
      reads this, rng
    {
      && aesKey == st.key && slotId == st.slot && rng.drawn == st.drawn
      && Implements(active, pending, retired, NextPhase(st.phase, o))
      && responseIvValid == Accepted(o) && (responseIvValid ==> responseIv == o.iv)
      && |plaintext| == MAX_PAYLOAD && plaintextSize <= MAX_PAYLOAD && IvResponseFits(st.phase)
    }

    /** The records once the allowance has been spent: like the selected phase,
        except that a retired record about to be dropped may have lost its flag. */
    ghost predicate Spent(phase: Phase, usesActive: bool, poll: bool)
      reads this
    {
      match phase
      case Handoff(a, p, allowance) =>
        var left := if !usesActive then allowance else if poll then AfterPoll(allowance) else Closed;
        Implements(active, pending, retired, Handoff(a, p, left))
      case Overlap(a, r) =>
        && Keeps(active, a) && !active.lateActionAllowed && !pending.valid
        && (if usesActive then !retired.valid else Keeps(retired, r))
      case _ => Implements(active, pending, retired, phase)
    }

    /** Polls and actions under a superseded generation use up its allowance. */
    method SpendAllowance(usesActive: bool, usesRetired: bool, ghost phase: Phase, ghost g: Generation)
      returns (admitted: bool)
      requires Implements(active, pending, retired, AfterSelection(phase, usesActive))
      requires Selected(phase, g, !usesActive && !usesRetired, usesActive, usesRetired) && Distinct(phase)
      modifies this`active, this`retired
      ensures admitted <==> (Predecessor(phase) == Some(g) && command.kind != StatePoll ==>
                               IsFastUnlock(command) && LateActionAllowed(phase))
      ensures Spent(phase, usesActive, command.kind == StatePoll)
      ensures active.iv == old(active.iv) && retired.iv == old(retired.iv)
    {
      var usesPredecessor := usesRetired || (usesActive && pending.valid);
      if usesActive && pending.valid && command.kind == StatePoll && active.lateActionAllowed {
        if active.handoffPollSeen {
          active := active.(lateActionAllowed := false);
        } else {
          active := active.(handoffPollSeen := true);
        }
      }
      admitted := true;
      if usesPredecessor && command.kind != StatePoll {
        var late := if usesActive then active.lateActionAllowed else retired.lateActionAllowed;
        admitted := IsFastUnlock(command) && late;
        if usesActive {
          active := active.(lateActionAllowed := false);
        } else {
          retired := retired.(lateActionAllowed := false);
        }
      }
    }

    method Reject(usesRetired: bool, ghost phase: Phase, ghost g: Generation, ghost o: Observation,
                  ghost usesActive: bool)
      requires Selected(phase, g, !usesActive && !usesRetired, usesActive, usesRetired) && Distinct(phase)
      requires o.Attempt? && o.gen == g.id && o.command == command && !o.accepted
      requires Spent(phase, usesActive, command.kind == StatePoll)
      requires o.accepted == Admits(phase, g, o.command, o.ciphertext)
      modifies this`retired
      ensures Implements(active, pending, retired, NextPhase(phase, o))
    {
      if usesRetired {
        retired := EMPTY_CONTEXT;
      }
    }

    /** Appends an accepted action to the ring of the record that decrypted it. */
    method RecordCiphertext(usesPending: bool, usesActive: bool, usesPredecessor: bool,
                            ciphertext: seq<byte>, ghost log: seq<seq<byte>>)
      requires var c := if usesPending then pending else if usesActive then active else retired;
               RingHolds(c.history, c.head, log)
      requires 1 <= |ciphertext| <= MAX_PAYLOAD
      modifies this`active, this`pending, this`retired
      ensures var c, b := if usesPending then pending else if usesActive then active else retired,
                          old(if usesPending then pending else if usesActive then active else retired);
              && RingHolds(c.history, c.head, log + [ciphertext])
              && c == b.(history := c.history, head := c.head,
                         lateActionAllowed := b.lateActionAllowed && !usesPredecessor)
      ensures usesPending || pending == old(pending)
      ensures (!usesPending && usesActive) || active == old(active)
      ensures (!usesPending && !usesActive) || retired == old(retired)
    {
      var context := if usesPending then pending else if usesActive then active else retired;
      var history, head := Record(context.history, context.head, ciphertext, log);
      context := context.(history := history, head := head);
      if usesPredecessor {
        context := context.(lateActionAllowed := false);
      }
      if usesPending {
        pending := context;
      } else if usesActive {
        active := context;
      } else {
        retired := context;
      }
    }

    /** The first frame under the pending generation makes it the active one; only
        a poll keeps the predecessor, and only while its allowance is unspent. A
        retired generation ends with the frame it served. */
    method Promote(usesPending: bool, usesRetired: bool)
      modifies this`active, this`pending, this`retired
      ensures if usesPending then
                && active == old(pending).(lateActionAllowed := false, handoffPollSeen := false)
                && pending == EMPTY_CONTEXT
                && retired == (if command.kind == StatePoll && old(active).valid && old(active).lateActionAllowed
                               then old(active) else EMPTY_CONTEXT)
              else
                active == old(active) && pending == old(pending) &&
                retired == (if usesRetired then EMPTY_CONTEXT else old(retired))
    {
      if usesPending {
        var retainPredecessor := command.kind == StatePoll && active.valid && active.lateActionAllowed;
        retired := if retainPredecessor then active else EMPTY_CONTEXT;
        active := pending;
        active := active.(lateActionAllowed := false);
        active := active.(handoffPollSeen := false);
        pending := EMPTY_CONTEXT;
      } else if usesRetired {
        retired := EMPTY_CONTEXT;
      }
    }

    method Accept(usesPending: bool, usesActive: bool, usesRetired: bool, usesPredecessor: bool,
                  ciphertext: seq<byte>, decrypted: seq<byte>,
                  ghost phase: Phase, ghost g: Generation, ghost o: Observation)
      requires Selected(phase, g, usesPending, usesActive, usesRetired) && Distinct(phase)
      requires o.Attempt? && o.gen == g.id && o.command == command && o.ciphertext == ciphertext && o.accepted
      requires Spent(phase, usesActive, command.kind == StatePoll)
      requires usesPredecessor == (usesRetired || (usesActive && pending.valid))
      requires usesPredecessor && usesActive && command.kind != StatePoll ==> !active.lateActionAllowed
      requires 1 <= |ciphertext| <= MAX_PAYLOAD && |decrypted| == |ciphertext| && |plaintext| == MAX_PAYLOAD
      modifies this`active, this`pending, this`retired, this`plaintext, this`plaintextSize,
               this`responseIv, this`responseIvValid
      ensures Implements(active, pending, retired, NextPhase(phase, o))
      ensures |plaintext| == MAX_PAYLOAD && plaintextSize == |decrypted| && plaintext[..plaintextSize] == decrypted
      ensures responseIvValid && responseIv == g.iv
    {
      if command.kind == Lock || command.kind == Unlock {
        RecordCiphertext(usesPending, usesActive, usesPredecessor, ciphertext, g.log);
      }
      plaintext := decrypted + plaintext[|decrypted|..];
      plaintextSize := |decrypted|;
      responseIv := if usesPending then pending.iv else if usesActive then active.iv else retired.iv;
      responseIvValid := true;
      Promote(usesPending, usesRetired);
    }

    method Decide(usesPending: bool, usesActive: bool, usesRetired: bool,
                  ciphertext: seq<byte>, decrypted: seq<byte>, seen: bool,
                  ghost st: State, ghost g: Generation, ghost o: Observation)
      returns (action: Action)
      requires Working(st, g, usesPending, usesActive, usesRetired)
      requires 1 <= |ciphertext| <= MAX_PAYLOAD && |decrypted| == |ciphertext|
      requires seen == (ciphertext in Recent(g.log))
      requires o == Attempt(g.id, g.iv, slotId, aesKey, ciphertext, decrypted, command,
                            Admits(st.phase, g, command, ciphertext))
      modifies this`active, this`pending, this`retired, this`command, this`plaintext, this`plaintextSize,
               this`responseIv, this`responseIvValid
      ensures Implements(active, pending, retired, NextPhase(st.phase, o))
      ensures |plaintext| == MAX_PAYLOAD && plaintextSize <= MAX_PAYLOAD && responseIvValid == o.accepted
      ensures Exposes(o, action) && command == CommandAfter(st.phase, o)
    {
      var usesPredecessor := usesRetired || (usesActive && pending.valid);
      var admitted := SpendAllowance(usesActive, usesRetired, st.phase, g);
      if !admitted {
        Reject(usesRetired, st.phase, g, o, usesActive);
        command := NO_COMMAND;
        return NoAction;
      }
      if command.kind == Lock || command.kind == Unlock {
        if seen {
          Reject(usesRetired, st.phase, g, o, usesActive);
          return NoAction;
        }
      }
      Accept(usesPending, usesActive, usesRetired, usesPredecessor, ciphertext, decrypted, st.phase, g, o);
      return Command;
    }

    method ProcessReadable(usesPending: bool, usesActive: bool, usesRetired: bool, ciphertext: seq<byte>, iv: Iv,
                           seen: bool, ghost st: State, ghost g: Generation)
      returns (action: Action)
      requires Working(st, g, usesPending, usesActive, usesRetired)
      requires 1 <= |ciphertext| <= MAX_PAYLOAD && iv == g.iv && seen == (ciphertext in Recent(g.log))
      modifies this`active, this`pending, this`retired, this`command, this`plaintext, this`plaintextSize,
               this`responseIv, this`responseIvValid
      ensures var o := ObserveReadable(Environment(), st, g, ciphertext);
              Finished(st, o) && Exposes(o, action) && command == CommandAfter(st.phase, o)
    {
      var decrypted := Xcrypt(keystream, aesKey, iv, ciphertext);
      command := Decode(decrypted);
      action := Decide(usesPending, usesActive, usesRetired, ciphertext, decrypted, seen, st, g,
                       ObserveReadable(Environment(), st, g, ciphertext));
    }

    method ProcessSelected(frame: seq<byte>, cryptoOk: bool,
                           usesPending: bool, usesActive: bool, usesRetired: bool, ghost st: State, ghost g: Generation)
      returns (action: Action)
      requires |frame| > HEADER_LEN && Working(st, g, usesPending, usesActive, usesRetired) && command == NO_COMMAND
      modifies this`active, this`pending, this`retired, this`command, this`plaintext, this`plaintextSize,
               this`responseIv, this`responseIvValid
      ensures var o := if |frame| - HEADER_LEN > MAX_PAYLOAD || !cryptoOk then Unreadable(g.id)
                       else ObserveReadable(Environment(), st, g, frame[HEADER_LEN..]);
              Finished(st, o) && Exposes(o, action) && command == CommandAfter(st.phase, o)
    {
      var ctLen := |frame| - HEADER_LEN;
      if ctLen > MAX_PAYLOAD {
        if usesRetired {
          retired := EMPTY_CONTEXT;
        }
        return NoAction;
      }
      var ciphertext := frame[HEADER_LEN..];
      var context := if usesPending then pending else if usesActive then active else retired;
      var seen := IsReplayed(context.history, ciphertext, context.head, g.log);
      if !cryptoOk {
        if usesRetired {
          retired := EMPTY_CONTEXT;
        }
        return NoAction;
      }
      action := ProcessReadable(usesPending, usesActive, usesRetired, ciphertext, context.iv, seen, st, g);
    }

    lemma FinishedRepresents(st: State, o: Observation)
      requires Finished(st, o) && !o.Advertised? && !o.Cleared? && !o.Rekeyed?
      ensures Represents(Apply(st, o))
    {
      FramesKeepAdvertised(st.phase, o);
    }

    method ProcessMatched(frame: seq<byte>, cryptoOk: bool, ghost st: State) returns (action: Action)
      requires |frame| > HEADER_LEN && header == FrameHeader(frame[1], frame[2], frame[3])
      requires frame[0] == PROTOCOL_MAGIC && frame[1] == slotId
      requires Represents(st.(replyIv := None)) && plaintextSize == 0 && command == NO_COMMAND && Distinct(st.phase)
      modifies this`active, this`pending, this`retired, this`command, this`plaintext, this`plaintextSize,
               this`responseIv, this`responseIvValid
      ensures var o := ObserveEncrypted(Environment(), st, frame, cryptoOk);
              Represents(Apply(st, o)) && Exposes(o, action) && command == CommandAfter(st.phase, o)
    {
      var usesPending := SeqMatches(pending, header);
      var usesActive := SeqMatches(active, header);
      var usesRetired := SeqMatches(retired, header);
      if !usesPending && !usesActive && !usesRetired {
        return NoAction;
      }
      ghost var g := Match(st.phase, frame[2], frame[3]).value;
      if usesActive && retired.valid {
        retired := EMPTY_CONTEXT;
      }
      action := ProcessSelected(frame, cryptoOk, usesPending, usesActive, usesRetired, st, g);
      FinishedRepresents(st, ObserveEncrypted(Environment(), st, frame, cryptoOk));
    }

    method ReceiveEncrypted(frame: seq<byte>, cryptoOk: bool, ghost st: State) returns (action: Action)
      requires Represents(st.(replyIv := None)) && plaintextSize == 0 && command == NO_COMMAND && Distinct(st.phase)
      modifies this`header, this`active, this`pending, this`retired, this`command, this`plaintext,
               this`plaintextSize, this`responseIv, this`responseIvValid
      ensures var o := ObserveEncrypted(Environment(), st, frame, cryptoOk);
              Represents(Apply(st, o)) && Exposes(o, action) && command == CommandAfter(st.phase, o)
    {
      if |frame| <= HEADER_LEN || frame[0] != PROTOCOL_MAGIC {
        return NoAction;
      }
      header := FrameHeader(frame[1], frame[2], frame[3]);
      if header.keyId != slotId {
        return NoAction;
      }
      if !active.valid && !pending.valid {
        return NoAction;
      }
      action := ProcessMatched(frame, cryptoOk, st);
    }

    method Receive(frame: seq<byte>, cryptoOk: bool, ghost st: State) returns (action: Action)
      requires Represents(st) && Distinct(st.phase)
      modifies this, rng
      ensures events == old(events)
      ensures var o := Observe(Environment(), st, Rx(frame, cryptoOk));
              Represents(Apply(st, o)) && Exposes(o, action) && command == CommandAfter(st.phase, o)
      ensures IsIvRequest(frame) && frame[7] == old(slotId) && old(pending.valid) ==>
                KeepsRecords(old(active), old(pending), old(retired), old(rng.drawn))
    {
      ClearTransient();
      if IsIvRequest(frame) {
        HandleIvRequest(frame[7], st);
        return SendIv;
      }
      action := ReceiveEncrypted(frame, cryptoOk, st);
    }

    method ProcessFrame(frame: seq<byte>, cryptoOk: bool) returns (action: Action)
      requires Valid()
      modifies this, rng
      ensures Valid() && events == old(events) + [Rx(frame, cryptoOk)]
      ensures Exposes(Observed()[|events| - 1], action)
      ensures command == CommandAfter(old(Abstract()).phase, Observed()[|events| - 1])
      ensures IsIvRequest(frame) && frame[7] == old(slotId) && old(pending.valid) ==>
                KeepsRecords(old(active), old(pending), old(retired), old(rng.drawn))
    {
      RunExtends(Environment(), events, Rx(frame, cryptoOk));
      ReachableDistinct(Environment(), events);
      action := Receive(frame, cryptoOk, Abstract());
      events := events + [Rx(frame, cryptoOk)];
    }

    // ----- Answering ---------------------------------------------------------

    /** The packet written for a reply, and its length; 0 when there is none. */
    method EncryptResponse(h: FrameHeader, payload: seq<byte>, cryptoOk: bool) returns (packet: seq<byte>, length: nat)
      requires Valid()
      ensures var reply := Reply(Environment(), Abstract(), h.keyId, h.seqA, h.seqB, payload, cryptoOk);
              if reply.Some? then packet == reply.value && length == |packet| else length == 0
    {
      if |payload| > MAX_PAYLOAD {
        return [], 0;
      }
      packet := [0x01, h.keyId, h.seqA, h.seqB];
      if !responseIvValid || h.seqA != responseIv[0] || h.seqB != responseIv[1] {
        return packet, 0;
      }
      if !cryptoOk {
        return packet, 0;
      }
      packet := packet + Xcrypt(keystream, aesKey, responseIv, payload);
      length := HEADER_LEN + |payload|;
    }
  }

  // ----- What the records always satisfy -------------------------------------

  predicate SharesSeq(a: CryptoContext, b: CryptoContext) {
    a.valid && b.valid && SameSeq(a.iv, b.iv)
  }

  /** In every reachable session: pending and retired never coexist; the armed
      flag on the active record means an IV is pending; no two valid records share
      their sequence bytes, so a header selects at most one; and a retired record
      exists exactly while the hand-off is open on the Vision slot and its
      successor has been used, and then with a valid active record. */
  lemma ContextInvariant(s: LockSession)
    requires s.Valid()
    ensures !(s.pending.valid && s.retired.valid)
    ensures s.active.valid && s.active.lateActionAllowed ==> s.pending.valid
    ensures !SharesSeq(s.active, s.pending) && !SharesSeq(s.active, s.retired) && !SharesSeq(s.pending, s.retired)
    ensures s.retired.valid ==> s.active.valid && s.retired.lateActionAllowed && s.slotId == VISION_KEY_SLOT
    ensures s.retired.valid <==>
            var tr := s.Observed();
            Superseded(tr) && Open(tr) && s.slotId == VISION_KEY_SLOT && LatestUsed(tr)
  {
    assert s.retired.valid <==> s.Abstract().phase.Overlap?;
    ReachableDistinct(s.Environment(), s.events);
    SessionTheorems.RetainedExactly(s.Environment(), s.events);
  }

  /** The ring of a valid record holds exactly the last min(8, n) of the action
      ciphertexts accepted under generation `id`, the one issued with the record's
      IV for the session's slot. */
  ghost predicate RingLists(c: CryptoContext, tr: Trace, id: int, slot: byte) {
    id >= 0 && IssuedHere(tr, id, c.iv, slot) && RingHolds(c.history, c.head, Actions(tr, id))
  }

  lemma RingOf(c: CryptoContext, g: Generation, st: State, tr: Trace)
    requires LiveFits(st, tr) && Holds(st.phase, g) && Keeps(c, g)
    ensures RingLists(c, tr, g.id, st.slot)
  {
  }

  /** What the rings of the three records list. */
  ghost predicate EachRingLists(active: CryptoContext, pending: CryptoContext, retired: CryptoContext,
                                tr: Trace, slot: byte) {
    && (pending.valid ==> RingLists(pending, tr, Issued(tr) - 1, slot))
    && (retired.valid ==> RingLists(retired, tr, Issued(tr) - 2, slot))
    && (active.valid ==> RingLists(active, tr, Issued(tr) - (if pending.valid then 2 else 1), slot))
  }

  lemma RingsOf(active: CryptoContext, pending: CryptoContext, retired: CryptoContext, st: State, tr: Trace)
    requires Implements(active, pending, retired, st.phase)
    requires LiveFits(st, tr) && SessionTheorems.HoldsNewest(st.phase, Issued(tr))
    ensures EachRingLists(active, pending, retired, tr, st.slot)
  {
    match st.phase
    case Idle =>
    case First(p) => RingOf(pending, p, st, tr);
    case Steady(a) => RingOf(active, a, st, tr);
    case Handoff(a, p, _) =>
      RingOf(active, a, st, tr);
      RingOf(pending, p, st, tr);
    case Overlap(a, r) =>
      RingOf(active, a, st, tr);
      RingOf(retired, r, st, tr);
  }

  /** Replay rings survive promotion, retirement and connection boundaries: the
      pending record's lists the actions of the latest generation, the retired
      one's those of its predecessor, and the active one's those of the latest or,
      while an IV is pending, of its predecessor. */
  lemma RingsListActions(s: LockSession)
    requires s.Valid()
    ensures EachRingLists(s.active, s.pending, s.retired, s.Observed(), s.slotId)
  {
    SessionTheorems.HeldIsNewest(s.Environment(), s.events);
    RingsOf(s.active, s.pending, s.retired, s.Abstract(), s.Observed());
  }
}
