/**
 The encrypted session as an abstract state machine.

 The program keeps three context records with validity bits, one-shot flags and
 an eight-entry ring. Here a session is in one of five phases, a generation keeps
 the whole list of action ciphertexts it accepted, and the one-shot capability is
 a three-valued allowance. `LockSession` proves the program's records implement
 this machine; `SessionTrace` proves what the machine does over whole runs.
 */
module SessionSpec {
  import opened Bytes
  import opened AesCtr
  import opened LockProtocol

  const HEADER_LEN := 4
  const MAX_PAYLOAD := 32
  const REPLAY_HISTORY_SIZE := 8
  const SESSION_IV_REQ_MIN := 8
  const IV_RETRIES := 4
  const PROTOCOL_MAGIC: byte := 0x57
  const VISION_KEY_SLOT: byte := 0xC6
  const IV_REQUEST_PREFIX: seq<byte> := [0x57, 0x00, 0x00, 0x00, 0x0F, 0x21, 0x03]

  /** What the session cannot influence: the cipher and the random generator. */
  datatype Env = Env(keystream: Keystream, words: nat -> Word)

  /** One crypto generation. `id` counts advertised IVs and is not on the wire;
      `log` holds the accepted LOCK/UNLOCK ciphertexts, oldest first. */
  datatype Generation = Generation(id: nat, iv: Iv, log: seq<seq<byte>>)

  /** What the superseded generation may still do: act after at most one more
      poll, act before any further poll, or not act at all. */
  datatype Allowance = Untouched | OnePollSeen | Closed

  datatype Phase =
    | Idle
    | First(pending: Generation)
    | Steady(active: Generation)
    | Handoff(active: Generation, pending: Generation, allowance: Allowance)
    | Overlap(active: Generation, retired: Generation)

  datatype State = State(
    key: Key,
    slot: byte,
    phase: Phase,
    nextId: nat,          // generations advertised so far
    drawn: nat,           // random words consumed so far
    replyIv: Option<Iv>)  // IV of the command being answered

  const INITIAL := State(0, 0x00, Idle, 0, 0, None)

  datatype Event =
    | Rx(frame: seq<byte>, cryptoOk: bool)
    | TransportReset
    | Reset
    | ForgetSlot  // issued only after Reset
    | SetKey(key: Key)

  /** What one event amounted to. */
  datatype Observation =
    | Advertised(gen: nat, iv: Iv, slot: byte, isNew: bool, rebased: bool, words: nat)
    | Unmatched
    | Unreadable(gen: nat)
    | Attempt(gen: nat, iv: Iv, slot: byte, key: Key, ciphertext: seq<byte>, plaintext: seq<byte>,
              command: DecodedCommand, accepted: bool)
    | Boundary
    | Cleared(slot: byte)
    | Rekeyed(key: Key)

  // ----- IV generation -------------------------------------------------------

  predicate SameSeq(a: Iv, b: Iv) {
    a[0] == b[0] && a[1] == b[1]
  }

  predicate Collides(iv: Iv, avoid: Option<Iv>) {
    avoid.Some? && SameSeq(iv, avoid.value)
  }

  function Candidate(words: nat -> Word, at: nat): Iv {
    words(at) + words(at + 1) + words(at + 2) + words(at + 3)
  }

  function FlipSeq(iv: Iv): Iv {
    iv[1 := iv[1] ^ 0x01]
  }

  /** The successive candidates when filling starts at word `at`. */
  function Fills(words: nat -> Word, at: nat): nat -> Iv {
    k => Candidate(words, at + 4 * k)
  }

  /** The IV chosen when `k` fills have collided so far, and the number of fills
      it took in all. */
  function PickIv(fill: nat -> Iv, avoid: Option<Iv>, k: nat): (Iv, nat)
    requires k <= IV_RETRIES
    decreases IV_RETRIES - k
  {
    if !Collides(fill(k), avoid) then (fill(k), k + 1)
    else if k == IV_RETRIES then (FlipSeq(fill(k)), k + 1)
    else PickIv(fill, avoid, k + 1)
  }

  // ----- Observing one event -------------------------------------------------

  predicate IsIvRequest(frame: seq<byte>) {
    |frame| >= SESSION_IV_REQ_MIN && frame[..7] == IV_REQUEST_PREFIX
  }

  predicate Names(g: Generation, seqA: byte, seqB: byte) {
    g.iv[0] == seqA && g.iv[1] == seqB
  }

  /** The generation whose IV a header names; the pending one is preferred. */
  function Match(phase: Phase, seqA: byte, seqB: byte): Option<Generation> {
    match phase
    case Idle => None
    case First(p) => if Names(p, seqA, seqB) then Some(p) else None
    case Steady(a) => if Names(a, seqA, seqB) then Some(a) else None
    case Handoff(a, p, _) =>
      if Names(p, seqA, seqB) then Some(p) else if Names(a, seqA, seqB) then Some(a) else None
    case Overlap(a, r) =>
      if Names(a, seqA, seqB) then Some(a) else if Names(r, seqA, seqB) then Some(r) else None
  }

  /** The superseded generation still held, if any. */
  function Predecessor(phase: Phase): Option<Generation> {
    match phase
    case Handoff(a, _, _) => Some(a)
    case Overlap(_, r) => Some(r)
    case _ => None
  }

  predicate LateActionAllowed(phase: Phase) {
    phase.Overlap? || (phase.Handoff? && !phase.allowance.Closed?)
  }

  function Recent(log: seq<seq<byte>>): seq<seq<byte>> {
    if |log| <= REPLAY_HISTORY_SIZE then log else log[|log| - REPLAY_HISTORY_SIZE..]
  }

  /** Whether the hand-off lets generation `id` carry out a command: a superseded
      one may only answer polls and, once, a fast unlock. */
  predicate HandoffAllows(phase: Phase, id: nat, command: DecodedCommand) {
    Predecessor(phase).Some? && Predecessor(phase).value.id == id && command.kind != StatePoll ==>
      IsFastUnlock(command) && LateActionAllowed(phase)
  }

  /** Whether a decrypted command is carried out. */
  predicate Admits(phase: Phase, g: Generation, command: DecodedCommand, ciphertext: seq<byte>) {
    && (Predecessor(phase) == Some(g) && command.kind != StatePoll ==>
          IsFastUnlock(command) && LateActionAllowed(phase))
    && (IsAction(command) ==> ciphertext !in Recent(g.log))
  }

  function AdvertiseNew(env: Env, st: State, slot: byte, rebased: bool, avoid: Option<Iv>): Observation {
    var (iv, fills) := PickIv(Fills(env.words, st.drawn), avoid, 0);
    Advertised(st.nextId, iv, slot, true, rebased, 4 * fills)
  }

  function Advertise(env: Env, st: State, slot: byte): Observation {
    var rebased := slot != st.slot;
    var phase := if rebased then Idle else st.phase;
    match phase
    case First(p) => Advertised(p.id, p.iv, slot, false, false, 0)
    case Handoff(_, p, _) => Advertised(p.id, p.iv, slot, false, false, 0)
    case Idle => AdvertiseNew(env, st, slot, rebased, None)
    case Steady(a) => AdvertiseNew(env, st, slot, rebased, Some(a.iv))
    case Overlap(a, _) => AdvertiseNew(env, st, slot, rebased, Some(a.iv))
  }

  function ObserveReadable(env: Env, st: State, g: Generation, ciphertext: seq<byte>): Observation {
    var plaintext := Xcrypt(env.keystream, st.key, g.iv, ciphertext);
    var command := Decode(plaintext);
    Attempt(g.id, g.iv, st.slot, st.key, ciphertext, plaintext, command,
            Admits(st.phase, g, command, ciphertext))
  }

  function ObserveEncrypted(env: Env, st: State, frame: seq<byte>, cryptoOk: bool): Observation {
    if |frame| <= HEADER_LEN || frame[0] != PROTOCOL_MAGIC || frame[1] != st.slot then Unmatched
    else
      match Match(st.phase, frame[2], frame[3])
      case None => Unmatched
      case Some(g) =>
        if |frame| - HEADER_LEN > MAX_PAYLOAD || !cryptoOk then Unreadable(g.id)
        else ObserveReadable(env, st, g, frame[HEADER_LEN..])
  }

  function Observe(env: Env, st: State, ev: Event): Observation {
    match ev
    case TransportReset => Boundary
    case Reset => Cleared(st.slot)
    case ForgetSlot => Cleared(0x00)
    case SetKey(key) => Rekeyed(key)
    case Rx(frame, cryptoOk) =>
      if IsIvRequest(frame) then Advertise(env, st, frame[7])
      else ObserveEncrypted(env, st, frame, cryptoOk)
  }

  /** What the command field shows once the event is over. A frame the hand-off
      refuses leaves it blank; a replay does not. */
  function CommandAfter(phase: Phase, o: Observation): DecodedCommand {
    if o.Attempt? && HandoffAllows(phase, o.gen, o.command) then o.command else NO_COMMAND
  }

  // ----- Applying an observation ---------------------------------------------

  predicate RecordsAction(o: Observation) {
    o.Attempt? && o.accepted && IsAction(o.command)
  }

  function WithAction(g: Generation, o: Observation): Generation
    requires o.Attempt?
  {
    if RecordsAction(o) then g.(log := g.log + [o.ciphertext]) else g
  }

  function AfterPoll(allowance: Allowance): Allowance {
    if allowance.Untouched? then OnePollSeen else Closed
  }

  function NextPhase(phase: Phase, o: Observation): Phase {
    match o
    case Unmatched => phase
    case Rekeyed(_) => phase
    case Cleared(_) => Idle
    case Boundary =>
      (match phase
       case Handoff(a, p, _) => Handoff(a, p, Closed)
       case Overlap(a, _) => Steady(a)
       case _ => phase)
    case Unreadable(_) => if phase.Overlap? then Steady(phase.active) else phase
    case Advertised(id, iv, slot, isNew, rebased, _) =>
      if !isNew then phase
      else if rebased || phase.Idle? || phase.First? then First(Generation(id, iv, []))
      else Handoff(phase.active, Generation(id, iv, []),
                   if slot == VISION_KEY_SLOT then Untouched else Closed)
    case Attempt(id, _, _, _, _, _, command, _) =>
      (match phase
       case Idle => phase
       case First(p) => Steady(WithAction(p, o))
       case Steady(a) => Steady(WithAction(a, o))
       case Handoff(a, p, allowance) =>
         if id == p.id then
           if command.kind == StatePoll && !allowance.Closed? then Overlap(p, a)
           else Steady(WithAction(p, o))
         else
           Handoff(WithAction(a, o), p, if command.kind == StatePoll then AfterPoll(allowance) else Closed)
       case Overlap(a, _) => if id == a.id then Steady(WithAction(a, o)) else Steady(a))
  }

  function Apply(st: State, o: Observation): State {
    State(
      if o.Rekeyed? then o.key else st.key,
      if o.Cleared? || o.Advertised? then o.slot else st.slot,
      NextPhase(st.phase, o),
      if o.Advertised? && o.isNew then st.nextId + 1 else st.nextId,
      if o.Advertised? then st.drawn + o.words else st.drawn,
      if o.Rekeyed? then st.replyIv
      else if o.Attempt? && o.accepted then Some(o.iv) else None)
  }

  /** The state and the observations after a whole run. */
  function Run(env: Env, events: seq<Event>): (run: (State, seq<Observation>))
    ensures |run.1| == |events|
  {
    if events == [] then (INITIAL, [])
    else
      var (st, trace) := Run(env, events[..|events| - 1]);
      var o := Observe(env, st, events[|events| - 1]);
      (Apply(st, o), trace + [o])
  }

  lemma RunExtends(env: Env, events: seq<Event>, ev: Event)
    ensures var (st, trace) := Run(env, events);
            var o := Observe(env, st, ev);
            Run(env, events + [ev]) == (Apply(st, o), trace + [o])
  {
    assert (events + [ev])[..|events|] == events;
  }

  // ----- Replies -------------------------------------------------------------

  /** The packet answering a header, or none when the header's sequence bytes are
      not those of the IV that decrypted the last command. */
  function Reply(env: Env, st: State, keyId: byte, seqA: byte, seqB: byte,
                 plaintext: seq<byte>, cryptoOk: bool): Option<seq<byte>> {
    if |plaintext| > MAX_PAYLOAD || st.replyIv.None? || !cryptoOk ||
       seqA != st.replyIv.value[0] || seqB != st.replyIv.value[1] then None
    else
      Some([0x01, keyId, seqA, seqB] + Xcrypt(env.keystream, st.key, st.replyIv.value, plaintext))
  }
}
