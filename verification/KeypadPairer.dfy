/**
 The keypad link. Foreign calls (scanning, connecting, writing, waiting for an
 answer) are reduced to whether they succeed; the commands written are kept.
 */
module KeypadPairer {
  import opened Bytes
  import opened JobHandoff
  import opened JobProgress
  import opened KeySlots

  datatype KeypadFamily = Original | Vision

  /** What differs between the two dialects. */
  datatype FamilyPreset = FamilyPreset(
    sharedSlot: byte,
    slotInitNonce: byte,
    enterPairing: seq<byte>,
    capabilitiesProbe: Option<seq<byte>>,
    finalizeTail: seq<byte>,
    enableDoorbell: Option<seq<byte>>)

  const ORIGINAL_PRESET := FamilyPreset(
    0x88, 0x69,
    [0x0F, 0x52, 0x01, 0x07, 0x00],
    None,
    [0x00, 0x08, 0x09, 0x04, 0x05, 0x07],
    None)

  const VISION_PRESET := FamilyPreset(
    0xC6, 0x80,
    [0x0F, 0x53, 0x01, 0x07],
    Some([0x0F, 0x53, 0x07, 0x03]),
    [0x04, 0x04, 0x01, 0x05, 0x08, 0x09],
    Some([0x0F, 0x52, 0x01, 0x09, 0x02, 0x01, 0x01]))

  function PresetFor(family: KeypadFamily): FamilyPreset {
    if family == Vision then VISION_PRESET else ORIGINAL_PRESET
  }

  const BASE_STEP_COUNT := 8
  const DOORBELL_STEP := 8
  const VISION_STEP_COUNT := 9

  function StepCount(family: KeypadFamily): nat {
    if family == Vision then VISION_STEP_COUNT else BASE_STEP_COUNT
  }

  type MacBytes = s: seq<byte> | |s| == 6 witness seq(6, _ => 0)

  datatype PairRequest = PairRequest(mac: string, family: KeypadFamily, token: SharedKey, bridgeMac: MacBytes)

  /** Which of the calls whose failure ends the job succeed, and which family the
      keypad's own advertisement names, if it is recognised. */
  datatype PairCalls = PairCalls(
    found: bool, advertised: Option<KeypadFamily>,
    connected: bool, ivRequested: bool, ivReceived: bool, pairingEntered: bool,
    slotOpened: bool, firstHalf: bool, secondHalf: bool, target: bool)

  /** The step shown when the job stops: that of the first call that fails. */
  function PairStop(c: PairCalls): Option<nat> {
    if !c.found || !c.connected then Some(0)
    else if !c.ivRequested || !c.ivReceived then Some(2)
    else if !c.pairingEntered || !c.slotOpened then Some(3)
    else if !c.firstHalf then Some(4)
    else if !c.secondHalf then Some(5)
    else if !c.target then Some(6)
    else None
  }

  /** The calls whose failure ends the job, in order, with the step shown meanwhile. */
  function Checks(c: PairCalls): seq<(bool, nat)> {
    [(c.found, 0), (c.connected, 0), (c.ivRequested, 2), (c.ivReceived, 2), (c.pairingEntered, 3),
     (c.slotOpened, 3), (c.firstHalf, 4), (c.secondHalf, 5), (c.target, 6)]
  }

  /** The job stops at the step of the first call that fails, if one does. */
  lemma PairStopIsFirstFailure(c: PairCalls)
    ensures match PairStop(c)
            case None => forall i :: 0 <= i < 9 ==> Checks(c)[i].0
            case Some(at) => exists i :: 0 <= i < 9 && !Checks(c)[i].0 && Checks(c)[i].1 == at &&
                                         forall j :: 0 <= j < i ==> Checks(c)[j].0
  {
    var checks := Checks(c);
    if PairStop(c).Some? {
      var i := if !c.found then 0 else if !c.connected then 1 else if !c.ivRequested then 2
               else if !c.ivReceived then 3 else if !c.pairingEntered then 4 else if !c.slotOpened then 5
               else if !c.firstHalf then 6 else if !c.secondHalf then 7 else 8;
      assert !checks[i].0 && checks[i].1 == PairStop(c).value;
    }
  }

  // ----- The commands written ------------------------------------------------

  const PREPARE: seq<byte> := [0x06, 0x03]
  const FINALIZE: seq<byte> := [0x0F, 0x53, 0x01, 0x06]

  function Optional(command: Option<seq<byte>>): seq<seq<byte>> {
    if command.Some? then [command.value] else []
  }

  function KeyHalf(slot: byte, index: byte, half: seq<byte>): seq<byte> {
    [0x0F, 0x20, 0x04, slot, index] + half
  }

  function SlotInit(p: FamilyPreset): seq<byte> {
    [0x0F, 0x20, 0x03, p.sharedSlot, p.slotInitNonce]
  }

  function Target(p: FamilyPreset, bridgeMac: MacBytes): seq<byte> {
    [0x06, 0x01, p.sharedSlot] + bridgeMac
  }

  function FinalizeFamily(p: FamilyPreset): seq<byte> {
    [0x0F, 0x52, 0x02, 0x02, 0x10, 0xFF, 0x05, 0x06] + p.finalizeTail
  }

  /** The keypad has opened an encrypted session. */
  predicate SessionOpen(c: PairCalls) {
    c.found && c.connected && c.ivRequested && c.ivReceived
  }

  /** The commands that open the key slot, up to a checked one that fails. */
  function Opening(c: PairCalls, p: FamilyPreset): seq<seq<byte>> {
    if !c.pairingEntered then [p.enterPairing]
    else [p.enterPairing] + Optional(p.capabilitiesProbe) + [PREPARE, SlotInit(p)]
  }

  /** The commands that write to the open slot, up to one that fails. */
  function SlotWrites(c: PairCalls, p: FamilyPreset, token: SharedKey, bridgeMac: MacBytes): seq<seq<byte>> {
    var first := [KeyHalf(p.sharedSlot, 0x00, token[..8])];
    var second := first + [KeyHalf(p.sharedSlot, 0x01, token[8..])];
    if !c.firstHalf then first else if !c.secondHalf then second else second + [Target(p, bridgeMac)]
  }

  function Finishing(p: FamilyPreset): seq<seq<byte>> {
    [FinalizeFamily(p), FINALIZE] + Optional(p.enableDoorbell)
  }

  /** The commands tried, in order, when the keypad is treated as one of `family`:
      all of them, or those up to the first checked one that fails. */
  function CommandsTried(c: PairCalls, family: KeypadFamily, token: SharedKey, bridgeMac: MacBytes): seq<seq<byte>> {
    var p := PresetFor(family);
    if !SessionOpen(c) then []
    else if !c.pairingEntered || !c.slotOpened then Opening(c, p)
    else if !c.firstHalf || !c.secondHalf || !c.target then Opening(c, p) + SlotWrites(c, p, token, bridgeMac)
    else Opening(c, p) + SlotWrites(c, p, token, bridgeMac) + Finishing(p)
  }

  lemma SentInOrder(before: seq<seq<byte>>, a: seq<seq<byte>>, b: seq<seq<byte>>, c: seq<seq<byte>>)
    ensures before + a + b == before + (a + b) && before + a + b + c == before + (a + b + c)
  {
  }

  lemma FirstCommand(c: PairCalls, family: KeypadFamily, token: SharedKey, bridgeMac: MacBytes)
    requires SessionOpen(c)
    ensures var tried := CommandsTried(c, family, token, bridgeMac);
            tried != [] && tried[0] == PresetFor(family).enterPairing
  {
  }

  lemma FamiliesDiffer(c: PairCalls, f: KeypadFamily, g: KeypadFamily, token: SharedKey, bridgeMac: MacBytes)
    requires SessionOpen(c)
    ensures CommandsTried(c, f, token, bridgeMac) == CommandsTried(c, g, token, bridgeMac) <==> f == g
  {
    FirstCommand(c, f, token, bridgeMac);
    FirstCommand(c, g, token, bridgeMac);
    assert |ORIGINAL_PRESET.enterPairing| != |VISION_PRESET.enterPairing|;
  }

  /** The keypad is sent what the family it advertises expects. */
  predicate ActsAsAdvertised(c: PairCalls, r: PairRequest) {
    && c.advertised.Some?
    && CommandsTried(c, r.family, r.token, r.bridgeMac) ==
       CommandsTried(c, c.advertised.value, r.token, r.bridgeMac)
  }

  /** The family is not confirmed from the live advertisement: once a session is open,
      the job acts under the advertised family exactly when that is the family of the
      request; before that nothing is sent. */
  lemma FamilyFollowsRequest(c: PairCalls, r: PairRequest)
    ensures SessionOpen(c) ==> (ActsAsAdvertised(c, r) <==> c.advertised == Some(r.family))
    ensures !SessionOpen(c) ==> CommandsTried(c, r.family, r.token, r.bridgeMac) == []
  {
    if SessionOpen(c) && c.advertised.Some? {
      FamiliesDiffer(c, r.family, c.advertised.value, r.token, r.bridgeMac);
    }
  }

  const ALL_WELL := PairCalls(true, Some(Original), true, true, true, true, true, true, true, true)

  /** So a keypad that advertises one family can be linked, in full, as the other. */
  lemma OtherFamilyLinked(mac: string, token: SharedKey, bridgeMac: MacBytes)
    ensures var r := PairRequest(mac, Vision, token, bridgeMac);
            PairStop(ALL_WELL).None? && !ActsAsAdvertised(ALL_WELL, r)
  {
    FamilyFollowsRequest(ALL_WELL, PairRequest(mac, Vision, token, bridgeMac));
  }

  /** The command on which a job with an open session stops. */
  function FailingCommand(c: PairCalls, family: KeypadFamily, token: SharedKey, bridgeMac: MacBytes): seq<byte>
    requires PairStop(c).Some?
  {
    var slot := if family == Vision then 0xC6 else 0x88;
    if !c.pairingEntered then
      if family == Vision then [0x0F, 0x53, 0x01, 0x07] else [0x0F, 0x52, 0x01, 0x07, 0x00]
    else if !c.slotOpened then [0x0F, 0x20, 0x03, slot, if family == Vision then 0x80 else 0x69]
    else if !c.firstHalf then [0x0F, 0x20, 0x04, slot, 0x00] + token[..8]
    else if !c.secondHalf then [0x0F, 0x20, 0x04, slot, 0x01] + token[8..]
    else [0x06, 0x01, slot] + bridgeMac
  }

  /** A job that fails with its session open has sent what a successful one sends, as
      far as the command that failed and no further. */
  lemma StopsAtFailure(c: PairCalls, family: KeypadFamily, token: SharedKey, bridgeMac: MacBytes)
    requires SessionOpen(c)
    ensures var tried := CommandsTried(c, family, token, bridgeMac);
            && tried <= CommandsTried(ALL_WELL, family, token, bridgeMac)
            && (PairStop(c).Some? ==>
                  tried != [] && tried[|tried| - 1] == FailingCommand(c, family, token, bridgeMac))
  {
    var p := PresetFor(family);
    var opening := Opening(ALL_WELL, p);
    var writes := SlotWrites(ALL_WELL, p, token, bridgeMac);
    assert Opening(c, p) <= opening;
    assert SlotWrites(c, p, token, bridgeMac) <= writes;
    if c.pairingEntered && c.slotOpened {
      assert Opening(c, p) == opening;
    }
    if c.firstHalf && c.secondHalf {
      assert SlotWrites(c, p, token, bridgeMac) == writes;
    }
  }

  // ----- What the keypad makes of them ---------------------------------------

  /** A keypad in the middle of being linked. */
  datatype Keypad = Keypad(
    family: Option<KeypadFamily>,   // the dialect in which pairing was entered
    probed: bool,
    prepared: bool,
    slot: Slot,
    target: Option<seq<byte>>,      // the address it will send its frames to
    configured: bool,
    finished: bool,
    doorbell: bool)

  const UNLINKED := Keypad(None, false, false, CLOSED, None, false, false, false)

  /** What a keypad that takes each command only after those it depends on does with
      the next one. */
  function Obey(k: Keypad, command: seq<byte>): Keypad {
    if command == [0x0F, 0x52, 0x01, 0x07, 0x00] then UNLINKED.(family := Some(Original))
    else if command == [0x0F, 0x53, 0x01, 0x07] then UNLINKED.(family := Some(Vision))
    else if command == [0x0F, 0x53, 0x07, 0x03] then k.(probed := k.family == Some(Vision))
    else if command == [0x06, 0x03] then k.(prepared := k.family.Some?)
    else if |command| >= 2 && command[..2] == [0x0F, 0x20] then
      if k.prepared then k.(slot := ObeySlot(k.slot, command)) else k
    else if |command| == 9 && command[..2] == [0x06, 0x01] then
      if KeyHeld(k.slot).Some? && k.slot.number == Some(command[2]) then k.(target := Some(command[3..])) else k
    else if command == [0x0F, 0x52, 0x02, 0x02, 0x10, 0xFF, 0x05, 0x06, 0x00, 0x08, 0x09, 0x04, 0x05, 0x07] then
      k.(configured := k.family == Some(Original) && k.target.Some?)
    else if command == [0x0F, 0x52, 0x02, 0x02, 0x10, 0xFF, 0x05, 0x06, 0x04, 0x04, 0x01, 0x05, 0x08, 0x09] then
      k.(configured := k.family == Some(Vision) && k.target.Some?)
    else if command == [0x0F, 0x53, 0x01, 0x06] then k.(finished := k.configured)
    else if command == [0x0F, 0x52, 0x01, 0x09, 0x02, 0x01, 0x01] then
      k.(doorbell := k.finished && k.family == Some(Vision))
    else k
  }

  function ObeyAll(k: Keypad, commands: seq<seq<byte>>): Keypad {
    if commands == [] then k
    else Obey(ObeyAll(k, commands[..|commands| - 1]), commands[|commands| - 1])
  }

  lemma {:induction false} ObeyAllSplits(k: Keypad, a: seq<seq<byte>>, b: seq<seq<byte>>)
    ensures ObeyAll(k, a + b) == ObeyAll(ObeyAll(k, a), b)
    decreases |b|
  {
    if b == [] {
      assert a + b == a;
    } else {
      var n := |b| - 1;
      ObeyAllSplits(k, a, b[..n]);
      assert (a + b)[..|a + b| - 1] == a + b[..n];
    }
  }

  lemma ObeyOne(k: Keypad, command: seq<byte>)
    ensures ObeyAll(k, [command]) == Obey(k, command)
  {
    assert [command][..0] == [];
    assert ObeyAll(k, []) == k;
  }

  lemma ObeyNext(k: Keypad, commands: seq<seq<byte>>, command: seq<byte>)
    ensures ObeyAll(k, commands + [command]) == Obey(ObeyAll(k, commands), command)
  {
    ObeyAllSplits(k, commands, [command]);
    ObeyOne(ObeyAll(k, commands), command);
  }

  /** The slot each family keeps the key in. */
  function SlotOf(family: KeypadFamily): byte {
    if family == Vision then 0xC6 else 0x88
  }

  lemma OpeningObeyed(c: PairCalls, family: KeypadFamily)
    requires c.pairingEntered
    ensures ObeyAll(UNLINKED, Opening(c, PresetFor(family))) ==
            UNLINKED.(family := Some(family), probed := family == Vision, prepared := true,
                      slot := Slot(Some(SlotOf(family)), None, None))
  {
    var p := PresetFor(family);
    var entered := [p.enterPairing];
    var probed := entered + Optional(p.capabilitiesProbe);
    ObeyOne(UNLINKED, p.enterPairing);
    if family == Vision {
      ObeyNext(UNLINKED, entered, p.capabilitiesProbe.value);
    } else {
      assert probed == entered;
    }
    ObeyNext(UNLINKED, probed, PREPARE);
    ObeyNext(UNLINKED, probed + [PREPARE], SlotInit(p));
    assert Opening(c, p) == probed + [PREPARE] + [SlotInit(p)];
  }

  lemma HalfObeyed(k: Keypad, slot: byte, index: byte, half: seq<byte>)
    requires |half| == 8 && k.prepared && k.slot.number == Some(slot)
    ensures Obey(k, KeyHalf(slot, index, half)) ==
            if index == 0x00 then k.(slot := k.slot.(low := Some(half)))
            else if index == 0x01 then k.(slot := k.slot.(high := Some(half)))
            else k
  {
    var command := KeyHalf(slot, index, half);
    assert command[1] == 0x20 && command[..2] == [0x0F, 0x20] && command[..3] == [0x0F, 0x20, 0x04];
    assert command[5..] == half;
  }

  lemma TargetObeyed(k: Keypad, p: FamilyPreset, bridgeMac: MacBytes)
    requires KeyHeld(k.slot).Some? && k.slot.number == Some(p.sharedSlot)
    ensures Obey(k, Target(p, bridgeMac)) == k.(target := Some(bridgeMac))
  {
    var command := Target(p, bridgeMac);
    assert command[0] == 0x06 && command[..2] == [0x06, 0x01] && command[3..] == bridgeMac;
  }

  lemma WritesObeyed(k: Keypad, c: PairCalls, family: KeypadFamily, token: SharedKey, bridgeMac: MacBytes)
    requires c.firstHalf && c.secondHalf
    requires k.prepared && k.slot == Slot(Some(SlotOf(family)), None, None)
    ensures ObeyAll(k, SlotWrites(c, PresetFor(family), token, bridgeMac)) ==
            k.(slot := Slot(Some(SlotOf(family)), Some(token[..8]), Some(token[8..])), target := Some(bridgeMac))
  {
    var p := PresetFor(family);
    var low, high := KeyHalf(p.sharedSlot, 0x00, token[..8]), KeyHalf(p.sharedSlot, 0x01, token[8..]);
    var half := k.(slot := k.slot.(low := Some(token[..8])));
    var full := half.(slot := half.slot.(high := Some(token[8..])));
    ObeyOne(k, low);
    HalfObeyed(k, p.sharedSlot, 0x00, token[..8]);
    ObeyNext(k, [low], high);
    HalfObeyed(half, p.sharedSlot, 0x01, token[8..]);
    ObeyNext(k, [low] + [high], Target(p, bridgeMac));
    TargetObeyed(full, p, bridgeMac);
  }

  lemma FinalizeObeyed(k: Keypad, family: KeypadFamily)
    ensures Obey(k, FinalizeFamily(PresetFor(family))) ==
            k.(configured := k.family == Some(family) && k.target.Some?)
  {
    var original, vision := FinalizeFamily(ORIGINAL_PRESET), FinalizeFamily(VISION_PRESET);
    assert original == [0x0F, 0x52, 0x02, 0x02, 0x10, 0xFF, 0x05, 0x06, 0x00, 0x08, 0x09, 0x04, 0x05, 0x07];
    assert vision == [0x0F, 0x52, 0x02, 0x02, 0x10, 0xFF, 0x05, 0x06, 0x04, 0x04, 0x01, 0x05, 0x08, 0x09];
    assert original[8] == 0x00 && vision[8] == 0x04;
    assert original[1] == vision[1] == 0x52;
  }

  lemma DoorbellObeyed(k: Keypad)
    requires k.finished && k.family == Some(Vision)
    ensures Obey(k, VISION_PRESET.enableDoorbell.value) == k.(doorbell := true)
  {
    var command := VISION_PRESET.enableDoorbell.value;
    assert command == [0x0F, 0x52, 0x01, 0x09, 0x02, 0x01, 0x01];
    assert |command| == 7 && command[1] == 0x52;
  }

  lemma FinishObeyed(k: Keypad)
    ensures Obey(k, FINALIZE) == k.(finished := k.configured)
  {
    assert |FINALIZE| == 4 && FINALIZE[1] == 0x53 && FINALIZE[2] == 0x01 && FINALIZE[3] == 0x06;
    assert FINALIZE[..2][1] == 0x53;
  }

  lemma FinishingObeyed(k: Keypad, family: KeypadFamily)
    requires k.family == Some(family) && k.target.Some? && !k.doorbell
    ensures ObeyAll(k, Finishing(PresetFor(family))) ==
            k.(configured := true, finished := true, doorbell := family == Vision)
  {
    var p := PresetFor(family);
    ObeyOne(k, FinalizeFamily(p));
    FinalizeObeyed(k, family);
    ObeyNext(k, [FinalizeFamily(p)], FINALIZE);
    FinishObeyed(k.(configured := true));
    var two := [FinalizeFamily(p)] + [FINALIZE];
    assert two == [FinalizeFamily(p), FINALIZE];
    if family == Vision {
      ObeyNext(k, two, p.enableDoorbell.value);
      DoorbellObeyed(k.(configured := true, finished := true));
      assert two + [p.enableDoorbell.value] == Finishing(p);
    } else {
      assert Finishing(p) == two;
    }
  }

  /** A keypad that obeys the commands of a link in which no checked call fails ends up
      holding exactly the shared key, in the slot of the requested family, entered in
      that family's dialect, and sends its frames to the bridge. */
  lemma LinkedKeypad(c: PairCalls, family: KeypadFamily, token: SharedKey, bridgeMac: MacBytes)
    requires PairStop(c).None?
    ensures var k := ObeyAll(UNLINKED, CommandsTried(c, family, token, bridgeMac));
            && k.slot.number == Some(if family == Vision then 0xC6 else 0x88) && KeyHeld(k.slot) == Some(token)
            && k.target == Some(bridgeMac) && k.family == Some(family)
            && k.configured && k.finished && k.probed == k.doorbell == (family == Vision)
  {
    var p := PresetFor(family);
    var opening, writes := Opening(c, p), SlotWrites(c, p, token, bridgeMac);
    OpeningObeyed(c, family);
    var open := ObeyAll(UNLINKED, opening);
    WritesObeyed(open, c, family, token, bridgeMac);
    ObeyAllSplits(UNLINKED, opening, writes);
    FinishingObeyed(ObeyAll(UNLINKED, opening + writes), family);
    ObeyAllSplits(UNLINKED, opening + writes, Finishing(p));
    HalvesMeet(token);
  }

  // ----- The job as the hand-off sees it -------------------------------------

  type PairResult = (string, KeypadFamily)
  type PairSystem = System<string, (), PairResult>

  /** The status and the results as one job record of the hand-off. */
  function PairJob(status: Status, mac: string, family: KeypadFamily): Job<(), PairResult> {
    if status.state == Success then Job(Success, status.jobId, Some(()), Some((mac, family)))
    else Job(status.state, status.jobId, None, None)
  }

  /** The step of the hand-off that ends a job. */
  function Ended(s: PairSystem, ok: bool): PairSystem {
    if ok then Take(Take(s, StoreEarly), Succeed) else Take(s, Fail)
  }

  lemma EndedJob(s: PairSystem, id: JobId, name: string, result: PairResult)
    requires s.task == Working(id, Request(name, (), result)) && s.job == Job(Running, Some(id), None, None)
    ensures Ended(s, true).job == Job(Success, Some(id), Some(()), Some(result))
    ensures Ended(s, false).job == Job(Failed, Some(id), None, None)
  {
  }

  class KeypadPairer {
    const job: BackgroundJob
    var statusMac: string
    var statusFamily: KeypadFamily

    /** The commands written to the keypad, oldest first. */
    var sent: seq<seq<byte>>

    ghost function View(): Job<(), PairResult>
      reads this, job
    {
      PairJob(job.status, statusMac, statusFamily)
    }

    constructor ()
      ensures fresh(job) && job.Recorded() && Lawful(job.history) && job.status == NO_STATUS && sent == []
      ensures View() == Job(JobState.Idle, None, None, None)
    {
      job := new BackgroundJob();
      statusMac, statusFamily := "", Original;
      sent := [];
    }

    /** Starts the job or, while one is running, changes nothing; either way just as
        the hand-off's start step does. */
    method Start(id: JobId, family: KeypadFamily, ghost s: PairSystem,
                 ghost request: Request<string, (), PairResult>) returns (started: bool)
      requires job.Recorded() && Lawful(job.history)
      requires s.job == View() && s.http.HttpIdle?
      modifies this`statusMac, this`statusFamily, job
      ensures job.Recorded() && Lawful(job.history) && started == (old(job.status.state) != Running)
      ensures if started then
                && job.OnCourse() && job.status == Status(Running, 0, if family == Vision then 9 else 8, Some(id))
                && statusMac == "" && statusFamily == Original
              else
                job.status == old(job.status) && statusMac == old(statusMac) && statusFamily == old(statusFamily)
      ensures View() == Take(s, Step.Start(id, request)).job
    {
      started := job.StartJob(id, StepCount(family));
      if started {
        statusMac, statusFamily := "", Original;
      }
    }

    method SetSuccess(mac: string, family: KeypadFamily)
      modifies this`statusMac, this`statusFamily, job
      ensures statusMac == mac && statusFamily == family
      ensures job.status == old(job.status).(state := Success, step := old(job.status).total)
      ensures job.history == old(job.history) + [job.status]
      ensures old(job.OnCourse()) ==> job.Recorded() && Lawful(job.history)
    {
      job.MarkSuccess();
      statusMac := mac;
      statusFamily := family;
    }

    method Send(command: seq<byte>)
      modifies this`sent
      ensures sent == old(sent) + [command]
    {
      sent := sent + [command];
    }

    method SendOptional(command: Option<seq<byte>>)
      modifies this`sent
      ensures sent == old(sent) + Optional(command)
    {
      if command.Some? {
        Send(command.value);
      }
    }

    /** From discovery to the open session. */
    method OpenSession(c: PairCalls) returns (ok: bool)
      requires job.OnCourse() && job.status.step == 0 && job.status.total >= BASE_STEP_COUNT
      modifies job
      ensures job.Recorded() && Lawful(job.history) && old(job.history) <= job.history
      ensures ok == SessionOpen(c)
      ensures job.status == if ok then old(job.status).(step := 2)
                            else old(job.status).(state := Failed, step := PairStop(c).value)
    {
      job.MarkStep(0);
      if !c.found {
        job.MarkFailed();
        return false;
      }
      if !c.connected {
        job.MarkFailed();
        return false;
      }
      job.MarkStep(1);
      job.MarkStep(2);
      if !c.ivRequested {
        job.MarkFailed();
        return false;
      }
      if !c.ivReceived {
        job.MarkFailed();
        return false;
      }
      return true;
    }

    /** Has the keypad open its key slot. */
    method OpenSlot(c: PairCalls, preset: FamilyPreset) returns (ok: bool)
      requires SessionOpen(c) && job.OnCourse() && job.status.step == 2 && job.status.total >= BASE_STEP_COUNT
      modifies this`sent, job
      ensures job.Recorded() && Lawful(job.history) && old(job.history) <= job.history
      ensures ok == (c.pairingEntered && c.slotOpened)
      ensures job.status == old(job.status).(step := 3, state := if ok then Running else Failed)
      ensures sent == old(sent) + Opening(c, preset)
    {
      job.MarkStep(3);
      Send(preset.enterPairing);
      if !c.pairingEntered {
        job.MarkFailed();
        return false;
      }
      SendOptional(preset.capabilitiesProbe);
      Send(PREPARE);
      Send(SlotInit(preset));
      if !c.slotOpened {
        job.MarkFailed();
        return false;
      }
      return true;
    }

    method RunStep(step: nat, command: seq<byte>, written: bool) returns (ok: bool)
      requires job.OnCourse() && job.status.step <= step < job.status.total
      modifies this`sent, job
      ensures ok == written && job.Recorded() && Lawful(job.history) && old(job.history) <= job.history
      ensures job.status == old(job.status).(step := step, state := if written then Running else Failed)
      ensures sent == old(sent) + [command]
    {
      job.MarkStep(step);
      Send(command);
      if !written {
        job.MarkFailed();
      }
      return written;
    }

    method WriteSlot(r: PairRequest, c: PairCalls, preset: FamilyPreset) returns (ok: bool)
      requires job.OnCourse() && job.status.step == 3 && job.status.total >= BASE_STEP_COUNT
      modifies this`sent, job
      ensures job.Recorded() && Lawful(job.history) && old(job.history) <= job.history
      ensures ok == (c.firstHalf && c.secondHalf && c.target)
      ensures job.status == old(job.status).(state := if ok then Running else Failed,
                                             step := if !c.firstHalf then 4 else if !c.secondHalf then 5 else 6)
      ensures sent == old(sent) + SlotWrites(c, preset, r.token, r.bridgeMac)
    {
      ok := RunStep(4, KeyHalf(preset.sharedSlot, 0x00, r.token[..8]), c.firstHalf);
      if !ok {
        return;
      }
      ok := RunStep(5, KeyHalf(preset.sharedSlot, 0x01, r.token[8..]), c.secondHalf);
      if !ok {
        return;
      }
      ok := RunStep(6, Target(preset, r.bridgeMac), c.target);
    }

    method Finish(preset: FamilyPreset)
      requires job.OnCourse() && job.status.step == 6
      requires job.status.total == if preset.enableDoorbell.Some? then VISION_STEP_COUNT else BASE_STEP_COUNT
      modifies this`sent, job
      ensures job.OnCourse() && old(job.history) <= job.history
      ensures job.status.jobId == old(job.status.jobId) && job.status.total == old(job.status.total)
      ensures sent == old(sent) + Finishing(preset)
    {
      job.MarkStep(7);
      Send(FinalizeFamily(preset));
      Send(FINALIZE);
      if preset.enableDoorbell.Some? {
        job.MarkStep(DOORBELL_STEP);
        Send(preset.enableDoorbell.value);
      }
    }

    /** The body of the job. It ends, in success exactly when no checked call
        fails, and otherwise at the step of the first one that does; it sends the
        commands of the requested family, whatever the keypad advertises, and ends
        just as the hand-off's job task does. */
    method Execute(r: PairRequest, c: PairCalls, ghost s: PairSystem, ghost name: string)
      requires job.OnCourse() && job.status.step == 0 && job.status.total == StepCount(r.family)
      requires s.job == View() && s.job.id.Some?
      requires s.task == Working(s.job.id.value, Request(name, (), (r.mac, r.family)))
      modifies this, job
      ensures job.Recorded() && Lawful(job.history) && old(job.history) <= job.history
      ensures job.status.jobId == old(job.status.jobId) && job.status.total == old(job.status.total)
      ensures match PairStop(c)
              case None => job.status.state == Success && statusMac == r.mac && statusFamily == r.family
              case Some(at) =>
                && job.status.state == Failed && job.status.step == at
                && statusMac == old(statusMac) && statusFamily == old(statusFamily)
      ensures sent == old(sent) + CommandsTried(c, r.family, r.token, r.bridgeMac)
      ensures job.status.state == Success ==>
                var k := ObeyAll(UNLINKED, sent[|old(sent)|..]);
                KeyHeld(k.slot) == Some(r.token) && k.target == Some(r.bridgeMac) && k.family == Some(r.family)
      ensures View() == Ended(s, PairStop(c).None?).job
    {
      EndedJob(s, s.job.id.value, name, (r.mac, r.family));
      if PairStop(c).None? {
        LinkedKeypad(c, r.family, r.token, r.bridgeMac);
      }
      var preset := PresetFor(r.family);
      SentInOrder(sent, Opening(c, preset), SlotWrites(c, preset, r.token, r.bridgeMac), Finishing(preset));
      var ok := OpenSession(c);
      if !ok {
        return;
      }
      ok := OpenSlot(c, preset);
      if !ok {
        return;
      }
      ok := WriteSlot(r, c, preset);
      if !ok {
        return;
      }
      Finish(preset);
      SetSuccess(r.mac, r.family);
    }
  }
}
