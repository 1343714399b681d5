/**
 The lock link. Foreign calls (scanning, connecting, writing, waiting for an
 answer) are reduced to whether they succeed, or to the answer; the commands that
 provision the lock are kept.
 */
module LockLinker {
  import opened Bytes
  import opened JobHandoff
  import opened JobProgress
  import opened KeySlots

  datatype Phase = Scan | Connect | Discover | Session | Command

  const STEP_CONNECT := 0
  const STEP_DISCOVER := 1
  const STEP_SESSION := 2
  const STEP_OPEN_SLOT := 3
  const STEP_WRITE_KEY_1 := 4
  const STEP_WRITE_KEY_2 := 5
  const STEP_VERIFY_SHARED_KEY := 6
  const STEP_COUNT := 7
  const PROVISION_COMMANDS := 4
  const SHARED_SLOT_ORIGINAL: byte := 0x88
  const SHARED_SLOT_VISION: byte := 0xC6

  /** Which foreign calls succeed, and the decrypted answer to each provisioning
      command, if there is one. */
  datatype LinkCalls = LinkCalls(
    modelSupported: bool,
    directConnect: bool, seen: bool, scannedConnect: bool,
    listening: bool, sessionOpened: bool, answers: nat -> Option<seq<byte>>,
    verifySessionOpened: bool, verified: bool)

  predicate Connects(c: LinkCalls) {
    c.directConnect || (c.seen && c.scannedConnect)
  }

  // ----- Provisioning --------------------------------------------------------

  function SlotNonce(slot: byte): byte {
    if slot == SHARED_SLOT_VISION then 0x80 else 0x69
  }

  function MakeProvisionCommands(slot: byte, key: SharedKey): seq<seq<byte>> {
    [[0x0F, 0x20, 0x09, slot],
     [0x0F, 0x20, 0x03, slot, SlotNonce(slot)],
     [0x0F, 0x20, 0x04, slot, 0x00] + key[..8],
     [0x0F, 0x20, 0x04, slot, 0x01] + key[8..]]
  }

  predicate ProvisionResponsesPlausible(slot: byte, responses: seq<seq<byte>>) {
    && |responses| == 4
    && (|responses[0]| == 0 || (|responses[0]| == 1 && responses[0][0] == slot))
    && |responses[1]| == 2 && responses[1][0] == slot && responses[1][1] == SlotNonce(slot)
    && |responses[2]| == 1 && responses[2][0] == slot
    && |responses[3]| == 1 && responses[3][0] == slot
  }

  /** A lock being provisioned: a slot has to be announced before it is opened. */
  datatype Lock = Lock(announced: Option<byte>, slot: Slot)

  const UNPROVISIONED := Lock(None, CLOSED)

  function Obey(l: Lock, command: seq<byte>): Lock {
    if |command| == 4 && command[..3] == [0x0F, 0x20, 0x09] then Lock(Some(command[3]), CLOSED)
    else if |command| > 4 && l.announced == Some(command[3]) then l.(slot := ObeySlot(l.slot, command))
    else l
  }

  /** What an obedient lock answers to a command: the slot, and the nonce it was
      opened with. */
  function AnswerTo(command: seq<byte>): seq<byte>
    requires |command| >= 4
  {
    if |command| == 5 then command[3..] else command[3..4]
  }

  /** A lock that obeys the four commands holds exactly the key, in that slot. */
  lemma ProvisionedLock(slot: byte, key: SharedKey)
    ensures var commands := MakeProvisionCommands(slot, key);
            && |commands| == 4
            && var l := Obey(Obey(Obey(Obey(UNPROVISIONED, commands[0]), commands[1]), commands[2]), commands[3]);
               l.slot.number == Some(slot) && KeyHeld(l.slot) == Some(key)
  {
    var commands := MakeProvisionCommands(slot, key);
    assert commands[1][..3] == [0x0F, 0x20, 0x03];
    assert commands[2][..3] == [0x0F, 0x20, 0x04] && commands[2][5..] == key[..8];
    assert commands[3][..3] == [0x0F, 0x20, 0x04] && commands[3][5..] == key[8..];
    HalvesMeet(key);
  }

  /** The answers are plausible exactly when they are an obedient lock's; the first
      may also be empty. */
  lemma PlausibleExactly(slot: byte, key: SharedKey, responses: seq<seq<byte>>)
    ensures var commands := MakeProvisionCommands(slot, key);
            ProvisionResponsesPlausible(slot, responses) <==>
            && |responses| == 4
            && (responses[0] == [] || responses[0] == AnswerTo(commands[0]))
            && forall i :: 1 <= i < 4 ==> responses[i] == AnswerTo(commands[i])
  {
    var commands := MakeProvisionCommands(slot, key);
    assert AnswerTo(commands[0]) == AnswerTo(commands[2]) == AnswerTo(commands[3]) == [slot];
    assert AnswerTo(commands[1]) == [slot, SlotNonce(slot)];
    if ProvisionResponsesPlausible(slot, responses) {
      assert responses[1] == [slot, SlotNonce(slot)];
      assert responses[2] == [slot] && responses[3] == [slot];
    }
  }

  // ----- The course of a link ------------------------------------------------

  predicate AllAnswered(c: LinkCalls) {
    c.answers(0).Some? && c.answers(1).Some? && c.answers(2).Some? && c.answers(3).Some?
  }

  function Responses(c: LinkCalls): seq<seq<byte>>
    requires AllAnswered(c)
  {
    [c.answers(0).value, c.answers(1).value, c.answers(2).value, c.answers(3).value]
  }

  /** Whether the lock has been provisioned and the shared key verified. */
  predicate Provisions(c: LinkCalls) {
    && c.modelSupported && Connects(c) && c.listening && c.sessionOpened && AllAnswered(c)
    && c.verifySessionOpened && c.verified
  }

  /** Whether the whole link succeeds. */
  predicate Links(c: LinkCalls, slot: byte) {
    Provisions(c) && ProvisionResponsesPlausible(slot, Responses(c))
  }

  /** How many provisioning commands are sent. */
  function CommandsReached(c: LinkCalls): nat {
    if !(c.modelSupported && Connects(c) && c.listening && c.sessionOpened) then 0
    else if c.answers(0).None? then 1
    else if c.answers(1).None? then 2
    else if c.answers(2).None? then 3
    else 4
  }

  /** The step shown when the job stops, if provisioning or verification fails: the
      last one it reached. */
  function ProvisionStop(c: LinkCalls): Option<nat> {
    if !c.modelSupported || !Connects(c) then Some(0)
    else if !c.listening then Some(1)
    else if !c.sessionOpened then Some(2)
    else if c.answers(0).None? || c.answers(1).None? then Some(3)
    else if c.answers(2).None? then Some(4)
    else if c.answers(3).None? || !c.verifySessionOpened then Some(5)
    else if !c.verified then Some(6)
    else None
  }

  function LinkStop(c: LinkCalls, slot: byte): Option<nat> {
    if ProvisionStop(c).Some? then ProvisionStop(c)
    else if !ProvisionResponsesPlausible(slot, Responses(c)) then Some(6)
    else None
  }

  /** The calls a link depends on, in order, with the step shown meanwhile. */
  function Checks(c: LinkCalls, slot: byte): seq<(bool, nat)> {
    [(c.modelSupported, 0), (Connects(c), 0), (c.listening, 1), (c.sessionOpened, 2),
     (c.answers(0).Some?, 3), (c.answers(1).Some?, 3), (c.answers(2).Some?, 4), (c.answers(3).Some?, 5),
     (c.verifySessionOpened, 5), (c.verified, 6),
     (AllAnswered(c) && ProvisionResponsesPlausible(slot, Responses(c)), 6)]
  }

  /** A link stops at the step of the first call that fails, and nowhere exactly when
      none does. */
  lemma LinkStopExact(c: LinkCalls, slot: byte)
    ensures LinkStop(c, slot).None? <==> Links(c, slot)
    ensures match LinkStop(c, slot)
            case None => forall i :: 0 <= i < 11 ==> Checks(c, slot)[i].0
            case Some(at) => exists i :: 0 <= i < 11 && !Checks(c, slot)[i].0 && Checks(c, slot)[i].1 == at &&
                                         forall j :: 0 <= j < i ==> Checks(c, slot)[j].0
  {
    var checks := Checks(c, slot);
    if LinkStop(c, slot).Some? {
      var i := if !c.modelSupported then 0 else if !Connects(c) then 1 else if !c.listening then 2
               else if !c.sessionOpened then 3 else if c.answers(0).None? then 4 else if c.answers(1).None? then 5
               else if c.answers(2).None? then 6 else if c.answers(3).None? then 7
               else if !c.verifySessionOpened then 8 else if !c.verified then 9 else 10;
      assert !checks[i].0 && checks[i].1 == LinkStop(c, slot).value;
    }
  }

  datatype LockIdentity = LockIdentity(name: string, mac: string, model: nat)

  const NO_LOCK := LockIdentity("", "", 0)

  // ----- The job as the hand-off sees it -------------------------------------

  type LinkSystem = System<(), byte, LockIdentity>

  /** The status and the results as one job record of the hand-off. */
  function LinkJob(status: Status, slot: byte, lock: LockIdentity): Job<byte, LockIdentity> {
    Job(status.state, status.jobId,
        if slot != 0 then Some(slot) else None,
        if status.state == Success then Some(lock) else None)
  }

  /** The steps of the hand-off that end a job. */
  function Ended(s: LinkSystem, ok: bool): LinkSystem {
    if ok then Take(Take(s, StoreEarly), Succeed) else Take(s, Fail)
  }

  lemma EndedJob(s: LinkSystem, id: JobId, slot: byte, lock: LockIdentity)
    requires s.task == Working(id, Request((), slot, lock)) && s.job == Job(Running, Some(id), None, None)
    ensures Take(s, StoreEarly).job == Job(Running, Some(id), Some(slot), None)
    ensures Ended(s, true).job == Job(Success, Some(id), Some(slot), Some(lock))
    ensures Ended(s, false).job == Job(Failed, Some(id), None, None)
  {
  }

  function SlotWritten(sharedSlot: byte): (slot: byte)
    ensures slot != 0
    ensures slot == sharedSlot || (sharedSlot == 0 && slot == 0x88)
  {
    if sharedSlot != 0 then sharedSlot else SHARED_SLOT_ORIGINAL
  }

  /** The step that shows the command of that index. */
  function CommandStep(index: nat): nat {
    if index < 2 then STEP_OPEN_SLOT else if index == 2 then STEP_WRITE_KEY_1 else STEP_WRITE_KEY_2
  }

  class LockLinker {
    const job: BackgroundJob
    var statusLock: LockIdentity
    var statusSlot: byte

    /** The provisioning commands written to the lock, oldest first. */
    var sent: seq<seq<byte>>

    ghost function View(): Job<byte, LockIdentity>
      reads this, job
    {
      LinkJob(job.status, statusSlot, statusLock)
    }

    constructor ()
      ensures fresh(job) && job.Recorded() && Lawful(job.history) && job.status == NO_STATUS
      ensures View() == Job(JobState.Idle, None, None, None)
    {
      job := new BackgroundJob();
      statusLock, statusSlot := NO_LOCK, 0;
      sent := [];
    }

    /** Starts the job or, while one is running, changes nothing; either way just as
        the hand-off's start step does. */
    method Start(id: JobId, ghost s: LinkSystem, ghost request: Request<(), byte, LockIdentity>)
      returns (started: bool)
      requires job.Recorded() && Lawful(job.history)
      requires s.job == View() && s.http.HttpIdle?
      modifies this`statusLock, this`statusSlot, job
      ensures job.Recorded() && Lawful(job.history) && started == (old(job.status.state) != Running)
      ensures if started then
                && job.OnCourse() && job.status == Status(Running, 0, 7, Some(id))
                && statusLock == NO_LOCK && statusSlot == 0
              else job.status == old(job.status) && statusLock == old(statusLock) && statusSlot == old(statusSlot)
      ensures View() == Take(s, Step.Start(id, request)).job
    {
      started := job.StartJob(id, STEP_COUNT);
      if started {
        statusLock, statusSlot := NO_LOCK, 0;
      }
    }

    /** The job is still running and shows `step`. */
    ghost predicate At(step: nat)
      reads job
    {
      job.OnCourse() && job.status.total == STEP_COUNT && job.status.step == step
    }

    method SetStep(step: nat)
      requires job.OnCourse() && job.status.total == STEP_COUNT && job.status.step <= step
      modifies job
      ensures At(if step < STEP_COUNT then step else old(job.status.step))
      ensures old(job.history) <= job.history && job.status.jobId == old(job.status.jobId)
    {
      if step >= STEP_COUNT {
        return;
      }
      job.MarkStep(step);
    }

    method ProvisionPhase(phase: Phase)
      requires job.OnCourse() && job.status.total == STEP_COUNT
      requires phase == Connect ==> job.status.step <= STEP_CONNECT
      requires phase == Discover ==> job.status.step <= STEP_DISCOVER
      requires phase == Session ==> job.status.step <= STEP_SESSION
      modifies job
      ensures At(match phase
                 case Connect => STEP_CONNECT
                 case Discover => STEP_DISCOVER
                 case Session => STEP_SESSION
                 case Scan => old(job.status.step)
                 case Command => old(job.status.step))
      ensures old(job.history) <= job.history && job.status.jobId == old(job.status.jobId)
    {
      match phase {
        case Connect => SetStep(STEP_CONNECT);
        case Discover => SetStep(STEP_DISCOVER);
        case Session => SetStep(STEP_SESSION);
        case Scan =>
        case Command =>
      }
    }

    method ProvisionCommand(index: nat)
      requires job.OnCourse() && job.status.total == STEP_COUNT
      requires index < PROVISION_COMMANDS && job.status.step <= CommandStep(index)
      modifies job
      ensures At(CommandStep(index))
      ensures old(job.history) <= job.history && job.status.jobId == old(job.status.jobId)
    {
      if index < 2 {
        SetStep(STEP_OPEN_SLOT);
      } else if index == 2 {
        SetStep(STEP_WRITE_KEY_1);
      } else if index == 3 {
        SetStep(STEP_WRITE_KEY_2);
      }
    }

    method VerifyPhase(phase: Phase)
      requires job.OnCourse() && job.status.total == STEP_COUNT
      modifies job
      ensures At(if phase == Command then STEP_VERIFY_SHARED_KEY else old(job.status.step))
      ensures old(job.history) <= job.history && job.status.jobId == old(job.status.jobId)
    {
      if phase == Command {
        SetStep(STEP_VERIFY_SHARED_KEY);
      }
    }

    /** At most two attempts; only a failed direct connection is retried, after a scan. */
    method ConnectLock(c: LinkCalls) returns (ok: bool)
      requires At(STEP_CONNECT)
      modifies job
      ensures ok == Connects(c) && At(if ok then STEP_DISCOVER else STEP_CONNECT)
      ensures old(job.history) <= job.history && job.status.jobId == old(job.status.jobId)
    {
      for attempt := 0 to 2
        invariant At(STEP_CONNECT) && (attempt > 0 ==> !c.directConnect) && attempt < 2
        invariant old(job.history) <= job.history && job.status.jobId == old(job.status.jobId)
      {
        if attempt == 1 {
          ProvisionPhase(Scan);
          if !c.seen {
            return false;
          }
        }
        ProvisionPhase(Connect);
        var connected := if attempt == 0 then c.directConnect else c.scannedConnect;
        if !connected {
          if attempt == 0 {
            continue;
          }
          return false;
        }
        ProvisionPhase(Discover);
        return true;
      }
      return false;
    }

    /** Sends the provisioning commands one by one until one is not answered. */
    method RunProvisioning(c: LinkCalls, commands: seq<seq<byte>>) returns (responses: seq<seq<byte>>)
      requires At(STEP_SESSION) && |commands| == PROVISION_COMMANDS
      requires c.modelSupported && Connects(c) && c.listening && c.sessionOpened
      modifies this`sent, job
      ensures job.OnCourse() && job.status.total == STEP_COUNT
      ensures old(job.history) <= job.history && job.status.jobId == old(job.status.jobId)
      ensures AllAnswered(c) <==> |responses| == PROVISION_COMMANDS
      ensures AllAnswered(c) ==> responses == Responses(c)
      ensures job.status.step == if AllAnswered(c) then STEP_WRITE_KEY_2 else ProvisionStop(c).value
      ensures sent == old(sent) + commands[..CommandsReached(c)]
    {
      responses := [];
      for i := 0 to PROVISION_COMMANDS
        invariant job.OnCourse() && job.status.total == STEP_COUNT
        invariant job.status.step == if i == 0 then STEP_SESSION else CommandStep(i - 1)
        invariant |responses| == i
        invariant forall k: nat :: k < i ==> c.answers(k).Some? && responses[k] == c.answers(k).value
        invariant sent == old(sent) + commands[..i]
        invariant old(job.history) <= job.history && job.status.jobId == old(job.status.jobId)
      {
        ProvisionCommand(i);
        assert commands[..i + 1] == commands[..i] + [commands[i]];
        sent := sent + [commands[i]];
        if c.answers(i).None? {
          return;
        }
        responses := responses + [c.answers(i).value];
      }
    }

    method ProvisionAndVerify(c: LinkCalls, commands: seq<seq<byte>>) returns (ok: bool, responses: seq<seq<byte>>)
      requires At(STEP_CONNECT) && |commands| == PROVISION_COMMANDS
      modifies this`sent, job
      ensures ok == Provisions(c) == ProvisionStop(c).None?
      ensures ok ==> responses == Responses(c)
      ensures job.status.step == if ok then STEP_VERIFY_SHARED_KEY else ProvisionStop(c).value
      ensures job.OnCourse() && job.status.total == STEP_COUNT
      ensures old(job.history) <= job.history && job.status.jobId == old(job.status.jobId)
      ensures sent == old(sent) + commands[..CommandsReached(c)]
    {
      responses := [];
      if !c.modelSupported {
        return false, responses;
      }
      ok := ConnectLock(c);
      if !ok {
        return;
      }
      if !c.listening {
        return false, responses;
      }
      ProvisionPhase(Session);
      if !c.sessionOpened {
        return false, responses;
      }
      responses := RunProvisioning(c, commands);
      if |responses| != PROVISION_COMMANDS {
        return false, responses;
      }
      VerifyPhase(Session);
      if !c.verifySessionOpened {
        return false, responses;
      }
      VerifyPhase(Command);
      ok := c.verified;
    }

    /** The body of the job: it ends, in success exactly when the link succeeds, and
        otherwise at the last step it reached. Only a success shows the lock it was
        asked to link; the slot it shows is the one it wrote: the one asked for, or
        0x88 when none is. It ends just as the hand-off's job task does. */
    method Execute(req: LockIdentity, sharedSlot: byte, sharedKey: SharedKey, c: LinkCalls, ghost s: LinkSystem)
      requires At(STEP_CONNECT) && statusSlot == 0
      requires s.job == View() && s.job.id.Some?
      requires s.task == Working(s.job.id.value, Request((), SlotWritten(sharedSlot), req))
      modifies this, job
      ensures job.Recorded() && Lawful(job.history) && old(job.history) <= job.history
      ensures job.status.jobId == old(job.status.jobId) && job.status.total == old(job.status.total)
      ensures var slot := if sharedSlot != 0 then sharedSlot else 0x88;
              && sent == old(sent) + MakeProvisionCommands(slot, sharedKey)[..CommandsReached(c)]
              && View() == Ended(s, Links(c, slot)).job
              && match LinkStop(c, slot)
                 case None =>
                   && job.status.state == Success && job.status.step == 7
                   && statusLock == req && statusSlot == slot
                 case Some(at) =>
                   && job.status.state == Failed && job.status.step == at
                   && statusLock == old(statusLock) && statusSlot == old(statusSlot)
    {
      var slot := if sharedSlot != 0 then sharedSlot else SHARED_SLOT_ORIGINAL;
      LinkStopExact(c, slot);
      EndedJob(s, s.job.id.value, slot, req);
      var ok, responses := ProvisionAndVerify(c, MakeProvisionCommands(slot, sharedKey));
      if !ok {
        job.MarkFailed();
        return;
      }
      if !ProvisionResponsesPlausible(slot, responses) {
        job.MarkFailed();
        return;
      }
      statusSlot := slot;
      job.MarkSuccess();
      statusLock := req;
    }
  }
}
