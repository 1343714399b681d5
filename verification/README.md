# Verification of the SwitchBot keypad bridge

A Dafny model of the parts of the bridge that decide which keypad frames are
obeyed, and proofs about every run of it. `dafny verify dfyconfig.toml` checks the
whole project.

## What is modelled

- **The encrypted session** (`LockSession`). The program keeps three context
  records (active, pending, retired) with validity bits, one-shot flags and
  eight-entry replay rings, and updates them in place. `LockSession.dfy` does the
  same, in the same order. It is proved to implement `SessionSpec.dfy`, where a
  session is in one of five phases, a generation keeps the whole list of actions it
  accepted, and the one-shot capability is a three-valued allowance.
- **Runs of the session.** `SessionTrace.dfy` says what a reader of the
  observations alone can say about generations and their hand-off;
  `SessionInvariant.dfy` ties it to the state; `SessionTheorems.dfy` holds the main
  results. A generation is identified by a count of generated IVs, not by the
  sequence bytes on the wire.
- **The bridge** (`BridgeSpec.dfy`, `Bridge.dfy`): the event queue between the
  Bluetooth task and the main loop, the lock state, the published events and the
  answers.
- **The background jobs** (`JobHandoff.dfy`, `PairingUi.dfy`, `JobProgress.dfy`,
  `KeypadPairer.dfy`, `LockLinker.dfy`): the three-task hand-off of a finished job,
  and the progress of the keypad and lock links. What a link shows as its status and
  results is, read as one job record, what the hand-off says it is.
- **The bytes on the air** (`KeypadFrames.dfy`, `KeySlots.dfy`): what keypads send and
  what keypads and locks make of the commands that link them, written out apart from
  the program's constants and tests. The theorems are stated over these bytes.
- **The AES-GCM IV increment** (`GcmIv.dfy`), inc_s of section 6.2 of NIST SP
  800-38D with s = 96.

## How the environment is modelled

- AES-CTR (section 6.5 of NIST SP 800-38A) is XOR with a keystream that is an
  arbitrary function of key, IV and position; each call also has a success flag
  chosen by the environment.
- The random generator is an arbitrary stream of four-byte words, a constant one
  included; it is not assumed to be shared with other users.
- Keys stand for the key material behind a handle.
- A keypad or lock is taken to obey the commands that link it: to open a slot, take the
  halves of a key by their index and take a target, each only after what it depends on.
- Tasks are interleaved atomic steps, one for each section under a mutex. There is
  no clock.
- Two job ids are assumed different, and one HTTP task is assumed to serve
  requests. The ids are millisecond readings, so this says that no two starts fall
  into one millisecond, nor exactly 2^32 milliseconds apart.
- Slot 0x00 makes an IV request and an encrypted frame indistinguishable. The
  results that build a frame ask for a non-zero slot or for a frame that is not an
  IV request; the others hold for every slot.
- `forget_slot()` leaves the contexts alone, so it is modelled only after a reset,
  which is how the bridge calls it.

## Where the code and its comments differ

- The comments say that no stale decoded bytes are exposed after a dropped frame.
  After a replayed action the command field still holds the decoded command:
  `SessionTheorems.StaleCommandExact` says exactly when, and
  `SessionTheorems.StaleCommandExists` that it happens. The plaintext and the reply IV
  are never stale (`LockSession.LockSession.ProcessFrame`).
- An overlong or undecryptable frame under the active record does not use up the
  hand-off while an IV is pending, although it does close a retained predecessor
  (`SessionTrace.HandoffOpenExtends`: a matched frame closes the hand-off only once the
  latest generation has been used).
- The wizard says that the pairer re-confirms the keypad family from the live
  advertisement; the job uses the family of the request. The two agree exactly when
  the request names the advertised family (`KeypadPairer.FamilyFollowsRequest`,
  `KeypadPairer.OtherFamilyLinked`).

## Model

| member | source | states |
|---|---|---|
| `SessionTheorems.HandoffExact` | components/switchbot_keypad_bridge/lock_session.cpp:161-199 | Over every run, a readable frame under the superseded generation whose plaintext is not a poll's bytes is accepted iff it is an unlock's bytes with method 0x04, 0x08, 0x0C or 0x18, not among the last eight actions of the generation, on slot 0xC6, while the hand-off read off the trace is open: no connection boundary or reset since the new IV, no earlier non-poll under the old one, at most one poll under it, and the new one unused or used once by a poll with no matched frame after |
| `SessionTheorems.LateFrameExact` | components/switchbot_keypad_bridge/lock_session.cpp:161-199 | For any payload of 1 to 32 bytes encrypted under the superseded IV on slot 0xC6 while the hand-off is open: accepted iff it is a poll or an unrepeated unlock by PIN, NFC, fingerprint or face |
| `SessionTheorems.PredecessorPollExact` | components/switchbot_keypad_bridge/lock_session.cpp:104-135 | A poll under the superseded generation is answered iff its successor is still unused, or the hand-off is open on the Vision slot |
| `SessionTheorems.LatestExact` | components/switchbot_keypad_bridge/lock_session.cpp:201-228 | A readable frame under the latest generation is decrypted, decoded and accepted unless its plaintext is a LOCK's or UNLOCK's bytes and its ciphertext is among the last eight actions of that generation |
| `SessionTheorems.StaleCommandExact` | components/switchbot_keypad_bridge/lock_session.cpp:201-219 | A dropped frame leaves its command in the command field iff the replay window alone rejected it: action bytes among the last eight actions of the generation, which is the latest one or allowed by the open hand-off; else the field is blank |
| `SessionTheorems.RepeatedActionShown` | components/switchbot_keypad_bridge/lock_session.cpp:205-219 | Repeating an accepted action of the latest generation drops it and leaves it in the command field |
| `SessionTheorems.StaleCommandExists` | components/switchbot_keypad_bridge/lock_session.cpp:205-219 | For every cipher and random stream, a request and one LOCK frame sent twice is such a run |
| `SessionTheorems.AttemptCases` | components/switchbot_keypad_bridge/lock_session.cpp:91-114 | No frame of any older generation is ever read; a side effect of the predecessor needs the open hand-off, a known method and slot 0xC6 |
| `SessionTheorems.SideEffectsMonotone` | components/switchbot_keypad_bridge/lock_session.cpp:230-245 | Generations of accepted non-poll commands never decrease over a run, resets and slot changes included |
| `SessionTheorems.OneLateAction` | components/switchbot_keypad_bridge/lock_session.cpp:185-199 | After a successor IV is generated at most one more non-poll is accepted under the old generation |
| `SessionTheorems.LateActionInOneConnection` | components/switchbot_keypad_bridge/lock_session.h:52-54 | No connection boundary or reset lies between the new IV and a late action |
| `SessionTheorems.RetainedExactly` | components/switchbot_keypad_bridge/lock_session.h:129-133 | The predecessor is retained after a promotion iff the hand-off is open on the Vision slot and the latest generation has been used |
| `SessionTheorems.RetiredLivesOneFrame` | components/switchbot_keypad_bridge/lock_session.cpp:116-135 | A retained predecessor ends with the next matched frame of any kind, IV request, boundary or reset; an unmatched frame leaves the phase untouched |
| `SessionTheorems.PendingPersists` | components/switchbot_keypad_bridge/lock_session.cpp:291-302 | An advertised IV not yet used and not cleared by a reset or slot change is the pending one, whatever came between |
| `SessionTheorems.NoStrandedCommand` | components/switchbot_keypad_bridge/lock_session.cpp:230-241 | Any payload of 1 to 32 bytes encrypted under an outstanding IV is accepted with exactly that payload and promotes the IV |
| `SessionTheorems.Provenance` | components/switchbot_keypad_bridge/lock_session.cpp:88-114 | Every frame read has magic 0x57, 5 to 36 bytes and the sequence bytes of an IV generated earlier in the same epoch for exactly the slot it names, of the latest generation or its predecessor; its plaintext is its decryption under that IV and its command the decoding of that plaintext |
| `SessionTheorems.NoGenerationOutlivesReset` | components/switchbot_keypad_bridge/lock_session.cpp:31-36 | A frame read after a reset was decrypted under an IV generated after it |
| `SessionTheorems.OneIv` | components/switchbot_keypad_bridge/lock_session.h:107-119 | Two frames read under one generation were decrypted under the same IV |
| `SessionTheorems.NoReplayInWindow` | components/switchbot_keypad_bridge/lock_session.cpp:205-219 | Two accepted LOCK or UNLOCK frames of one generation with at most seven others of it between them differ in ciphertext and, under one key, in plaintext |
| `SessionTrace.WindowIsRecent` | components/switchbot_keypad_bridge/lock_session.cpp:345-368 | Being in the tail of the list of accepted actions is having at most seven later ones, counted over the trace |
| `SessionTheorems.RequestsAreIdempotent` | components/switchbot_keypad_bridge/lock_session.cpp:291-302 | Every IV request is answered with the pending IV; a same-slot retry repeats it, draws no random word and changes no generation; a new one takes the next id |
| `SessionTheorems.AdvertisedWords` | components/switchbot_keypad_bridge/lock_session.cpp:317-333 | An IV takes at most 20 random words |
| `SessionTheorems.AdvertisedBytes` | components/switchbot_keypad_bridge/lock_session.cpp:317-337 | The sixteen bytes of a new IV are four successive random words in order: the first fill not sharing both first bytes with the active IV, or the fifth with one bit flipped; exactly those fills are drawn |
| `SessionTheorems.RequestBytesExact` | components/switchbot_keypad_bridge/lock_session.cpp:253-262 | An IV request is recognised from exactly its seven fixed bytes and a slot |
| `SessionTheorems.SequencesDistinct` | components/switchbot_keypad_bridge/lock_session.cpp:326-337 | Consecutive generations of one epoch differ in their sequence bytes, for every random stream |
| `SessionTheorems.HeldDistinct` | components/switchbot_keypad_bridge/lock_session.cpp:104-110 | Two generations held at once differ in their sequence bytes |
| `SessionTheorems.ReplyRoundTrip` | components/switchbot_keypad_bridge/lock_session.cpp:264-284 | A reply exists iff an accepted command is being answered (only a new key may have come since), the payload fits and the sequence bytes are the command's; it decrypts under the command's own IV and the present key |
| `SessionTheorems.ReplyAfterNewKey` | components/switchbot_keypad_bridge/lock_session.h:45 | A new key neither makes nor ends a reply; it moves it to the new key |
| `SessionInvariant.PickIvMeaning` | components/switchbot_keypad_bridge/lock_session.cpp:324-337 | The chosen IV is the first of at most five candidates that does not collide, or the fifth with one bit flipped, and never collides |
| `SessionInvariant.RunInv` | components/switchbot_keypad_bridge/lock_session.cpp:52-251 | Every reachable state fits its trace: ids, phase, flags, logs, issued IVs and distinct sequence bytes |
| `SessionInvariant.SummaryStep` | components/switchbot_keypad_bridge/lock_session.cpp:170-183 | The trace reading of the hand-off can be kept up to date one event at a time, as the flags do |
| `SessionTrace.HandoffOpenExtends` | components/switchbot_keypad_bridge/lock_session.cpp:170-199 | Exactly which single observation closes an open hand-off |
| `ReplayRing.IsReplayed` | components/switchbot_keypad_bridge/lock_session.cpp:345-357 | Searching the ring is searching the last eight accepted actions |
| `ReplayRing.Record` | components/switchbot_keypad_bridge/lock_session.cpp:359-368 | Writing one ring entry appends to the list of accepted actions, with the next position modulo eight |
| `ReplayRing.RecordHolds` | components/switchbot_keypad_bridge/lock_session.cpp:364-367 | After a write the ring again holds exactly the last min(8, n) entries |
| `LockSession.LockSession.constructor` | components/switchbot_keypad_bridge/lock_session.h:94-146 | A new session stands for the initial state |
| `LockSession.LockSession.SetAesKey` | components/switchbot_keypad_bridge/lock_session.h:45 | The key changes and nothing else |
| `LockSession.LockSession.ResetTransport` | components/switchbot_keypad_bridge/lock_session.cpp:38-43 | One step of the abstract machine; pending and the active generation stay, flags and the retired record go |
| `LockSession.LockSession.Reset` | components/switchbot_keypad_bridge/lock_session.cpp:31-36 | All three records become invalid, the slot stays |
| `LockSession.LockSession.ForgetSlot` | components/switchbot_keypad_bridge/lock_session.h:58 | The slot is forgotten; callable only with no valid record, as after a reset |
| `LockSession.LockSession.ProcessFrame` | components/switchbot_keypad_bridge/lock_session.cpp:52-251 | The in-place session makes exactly the abstract machine's step, returns the action for it and exposes header, plaintext and IV response, or nothing stale; the command field is given exactly for every frame, dropped ones included; a same-slot IV request while one is pending changes no record and draws no random word |
| `LockSession.LockSession.ProcessMatched` | components/switchbot_keypad_bridge/lock_session.cpp:104-135 | Choosing the record and closing the overlap |
| `LockSession.LockSession.Decide` | components/switchbot_keypad_bridge/lock_session.cpp:155-251 | Outcome of a readable frame: rejection or acceptance, with all records updated |
| `LockSession.LockSession.SpendAllowance` | components/switchbot_keypad_bridge/lock_session.cpp:161-199 | Polls and actions under a superseded record use up its one-shot allowance |
| `LockSession.LockSession.RecordCiphertext` | components/switchbot_keypad_bridge/lock_session.cpp:210-223 | An accepted action enters the ring of the record that decrypted it |
| `LockSession.LockSession.Promote` | components/switchbot_keypad_bridge/lock_session.cpp:230-248 | Promotion, retention of the predecessor and destruction of a used one |
| `LockSession.LockSession.EnsurePendingIv` | components/switchbot_keypad_bridge/lock_session.cpp:291-343 | A retry repeats the pending IV and leaves the three records and the generator as they were; a new request arms the hand-off and generates one |
| `LockSession.LockSession.DrawIv` | components/switchbot_keypad_bridge/lock_session.cpp:318-333 | The bounded retry loop follows the candidate sequence of the random stream; every fill before the last collided, at most five |
| `LockSession.PickIvAfter` | components/switchbot_keypad_bridge/lock_session.cpp:326-337 | After k collisions the IV kept is the next fill, its sequence bit flipped only if it is the fifth and collides too |
| `LockSession.LockSession.FillIv` | components/switchbot_keypad_bridge/lock_session.cpp:318-323 | Four words fill one IV in order |
| `LockSession.LockSession.EncryptResponse` | components/switchbot_keypad_bridge/lock_session.cpp:264-284 | The packet and its length are the abstract reply, or the length is 0 |
| `LockSession.ContextInvariant` | components/switchbot_keypad_bridge/lock_session.h:127-133 | Pending and retired never coexist, an armed flag implies a pending IV, valid records have distinct sequence bytes, and retired is valid exactly while the hand-off is open |
| `LockSession.RingsListActions` | components/switchbot_keypad_bridge/lock_session.h:107-119 | Each valid record's ring holds exactly the last min(8, n) actions of its own generation: the latest for pending, its predecessor for retired, and the latest or, while an IV is pending, the predecessor for active |
| `LockProtocol.UnlockFramesExactly` | components/switchbot_keypad_bridge/lock_protocol.cpp:61-74 | A plaintext decodes to UNLOCK iff it is an unlock frame for some method, index and tail, and then to that method and index |
| `LockProtocol.Classification` | components/switchbot_keypad_bridge/lock_protocol.cpp:44-77 | Each kind of command is decoded from exactly its own bytes; an unlock yields its method byte and its credential index, ten less from ten up |
| `LockProtocol.CredentialIndexAmbiguity` | components/switchbot_keypad_bridge/lock_protocol.cpp:65-72 | Two index bytes read as one credential iff they are equal or ten apart across the bias |
| `AesCtr.XcryptInvolution` | components/switchbot_keypad_bridge/aes_ctr.h:15-19 | Decrypting an encryption gives the input back |
| `AesCtr.XcryptMasks` | components/switchbot_keypad_bridge/aes_ctr.h:15-19 | Input and output differ at each position by the keystream byte there |
| `AesCtr.XcryptInjective` | components/switchbot_keypad_bridge/aes_ctr.h:15-19 | Under one key and IV equal ciphertexts come from equal plaintexts |
| `BridgeSpec.BridgeDrivesSession` | components/switchbot_keypad_bridge/switchbot_keypad_bridge.cpp:261-272 | Each turn of the main loop drives the session through exactly one event, so every session result holds of bridge runs, pairing resets included |
| `BridgeSpec.LockStateExact` | components/switchbot_keypad_bridge/switchbot_keypad_bridge.cpp:540-553 | The lock state is UNLOCKED iff some accepted unlock frame, by any method, has no accepted lock or unlock frame after it, by the bytes |
| `BridgeSpec.EventsExact` | components/switchbot_keypad_bridge/switchbot_keypad_bridge.cpp:540-567 | Published events are those the accepted plaintexts call for by their bytes, in number and order, with method and credential |
| `BridgeSpec.PollAnswered` | components/switchbot_keypad_bridge/switchbot_keypad_bridge.cpp:617-622 | Accepted poll bytes get one packet that decrypts under their own IV to 0x91 or 0x81, as the accepted frames left the lock, and the fixed 13-byte tail |
| `BridgeSpec.PayloadCarriedOut` | components/switchbot_keypad_bridge/switchbot_keypad_bridge.cpp:522-622 | Any payload under the latest IV that is not a repeated action is published, shown and answered as its bytes call for |
| `BridgeSpec.RequestAnswered` | components/switchbot_keypad_bridge/switchbot_keypad_bridge.cpp:522-534 | An IV request is answered with exactly 01 00 00 00 and the pending IV |
| `BridgeSpec.ActionAnswered` | components/switchbot_keypad_bridge/switchbot_keypad_bridge.cpp:595-603 | An accepted LOCK or UNLOCK is published, then answered with one packet decrypting to its fixed response |
| `BridgeSpec.CommandAnswered` | components/switchbot_keypad_bridge/switchbot_keypad_bridge.cpp:593-615 | Any accepted plaintext draws, after its event, exactly one packet: the bare header, or the answer its bytes call for under the command's own IV; none only when it could not be encrypted |
| `BridgeSpec.PacketsExact` | components/switchbot_keypad_bridge/switchbot_keypad_bridge.cpp:522-622 | Over a whole run the packets sent are, in number, order and header, one for each IV request and each accepted command whose answer is in the clear or could be encrypted |
| `BridgeSpec.QueueRefinesSequence` | components/switchbot_keypad_bridge/switchbot_keypad_bridge.cpp:253-272 | For every interleaving of pushes, swaps, handling and pairing resets, nothing is lost, repeated or reordered and the bridge equals sequential handling |
| `BridgeSpec.PassHandlesAll` | components/switchbot_keypad_bridge/switchbot_keypad_bridge.cpp:253-272 | After a swap and one turn for each event it took, everything pushed has been handled |
| `BridgeSpec.LateActionCrossesNoConnection` | components/switchbot_keypad_bridge/switchbot_keypad_bridge.cpp:261-268 | In no interleaving is there a connect, disconnect or pairing reset between the frame that drew the new IV and a late action: only frames, the ones pushed there |
| `BridgeSpec.ResetEndsGenerations` | components/switchbot_keypad_bridge/switchbot_keypad_bridge.cpp:365-402 | A frame read after a pairing reset, even one queued before it, was decrypted under the key then in force and an IV generated after the reset |
| `BridgeSpec.ResetTakesEffect` | components/switchbot_keypad_bridge/switchbot_keypad_bridge.cpp:365-402 | A reset puts the new key in force, leaves no generation, slot or pending reply, and touches neither queue, lock state nor outbox |
| `Bridge.Bridge.constructor` | components/switchbot_keypad_bridge/switchbot_keypad_bridge.cpp:127-135 | A new bridge: locked, nothing queued, pushed or handled, one key set |
| `Bridge.Bridge.PushConnect` | components/switchbot_keypad_bridge/switchbot_keypad_bridge.cpp:108-111 | Appends a connect event, also while a batch is being handled |
| `Bridge.Bridge.PushDisconnect` | components/switchbot_keypad_bridge/switchbot_keypad_bridge.cpp:113-116 | Appends a disconnect event, also while a batch is being handled |
| `Bridge.Bridge.PushRx` | components/switchbot_keypad_bridge/switchbot_keypad_bridge.cpp:118-121 | Appends a frame, also while a batch is being handled |
| `Bridge.Bridge.Drain` | components/switchbot_keypad_bridge/switchbot_keypad_bridge.cpp:253-272 | One pass handles exactly the events queued when it began, in order, and leaves those that arrive meanwhile |
| `Bridge.Bridge.TakeBatch` | components/switchbot_keypad_bridge/switchbot_keypad_bridge.cpp:253-259 | The swap takes the whole queue and leaves it empty |
| `Bridge.Bridge.ResetPairing` | components/switchbot_keypad_bridge/switchbot_keypad_bridge.cpp:365-402 | A reset makes its three session calls in order and leaves the queue, the lock state and the outbox; nothing happens when the key cannot be imported |
| `Bridge.Bridge.OnRxFrame` | components/switchbot_keypad_bridge/switchbot_keypad_bridge.cpp:522-534 | The session step, the lock state and everything sent or published for one frame |
| `Bridge.Bridge.HandleCommand` | components/switchbot_keypad_bridge/switchbot_keypad_bridge.cpp:536-591 | Lock state, published event and answer for one command |
| `Bridge.Bridge.SendLocalResponse` | components/switchbot_keypad_bridge/switchbot_keypad_bridge.cpp:595-615 | The answer for one command |
| `JobHandoff.CallbacksExact` | components/switchbot_keypad_bridge/pairing_ui.cpp:105-164 | For every interleaving with distinct ids, the callback fires at most once a job, only for a job that succeeded, and its name and results are all those of the one start request of that id |
| `JobHandoff.PollDelivers` | components/switchbot_keypad_bridge/pairing_ui.cpp:105-145 | After any schedule a whole poll fires iff the success of the bound job is unreported, and then exactly the callback of its own start request |
| `JobHandoff.JobDelivered` | components/switchbot_keypad_bridge/pairing_ui.cpp:592-605 | In every interleaving with no later start, a started job that succeeded is reported by the end of the next whole poll once its request was served |
| `JobHandoff.UndisturbedJob` | components/switchbot_keypad_bridge/pairing_ui.cpp:600-605 | Whatever came before, an undisturbed start, bind, success and poll appends exactly its own callback |
| `JobHandoff.EndedJobIsFinal` | components/switchbot_keypad_bridge/background_job.h:71-78 | After a job ends nothing writes its status until the next start |
| `JobHandoff.RunningJobEndsFirst` | components/switchbot_keypad_bridge/background_job.h:91-104 | In every interleaving a running job is never replaced: before another job is seen in its place it has ended |
| `JobHandoff.RunInv` | components/switchbot_keypad_bridge/pairing_ui.cpp:592-605 | The invariant of the three-task protocol holds after every schedule |
| `PairingUi.PairingUi.PollJobs` | components/switchbot_keypad_bridge/pairing_ui.cpp:105-145 | A poll in place is the five atomic sections in order, and fires iff the bound, unclaimed job has succeeded |
| `PairingUi.PairingUi.BindJob` | components/switchbot_keypad_bridge/pairing_ui.cpp:600-605 | Name and id are bound together and the success marked as unreported |
| `JobProgress.StepsNeverDecrease` | components/switchbot_keypad_bridge/background_job.h:62-78 | In a lawful history the steps of one job never decrease, stay below the total while running and equal it on success |
| `JobProgress.BackgroundJob.StartJob` | components/switchbot_keypad_bridge/background_job.h:91-104 | Refused and without effect while a job runs; otherwise a fresh running status |
| `KeypadPairer.KeypadPairer.Start` | components/switchbot_keypad_bridge/keypad_pairer.cpp:113-131 | Starts with the family's step count and both results cleared, or changes nothing; either way the hand-off's start step |
| `KeypadPairer.KeypadPairer.Execute` | components/switchbot_keypad_bridge/keypad_pairer.cpp:192-320 | A lawful history for both families; success iff no checked call fails, else the step of the first failing one; results change only on success; the commands sent are those of the requested family, in order, and after a success an obedient keypad holds exactly the shared key and the bridge's address; the job ends as the hand-off's job task does |
| `KeypadPairer.LinkedKeypad` | components/switchbot_keypad_bridge/keypad_pairer.cpp:264-314 | A keypad that obeys the commands of a successful link holds exactly the shared key in slot 0x88 or 0xC6, entered in its dialect, with the bridge as target |
| `KeypadPairer.StopsAtFailure` | components/switchbot_keypad_bridge/keypad_pairer.cpp:252-299 | A failed job has sent what a successful one sends, up to the failing command, given byte by byte |
| `KeypadPairer.PairStopIsFirstFailure` | components/switchbot_keypad_bridge/keypad_pairer.cpp:192-320 | The job stops at the step of the first failing call in the order of the calls |
| `KeypadPairer.FamilyFollowsRequest` | components/switchbot_keypad_bridge/keypad_pairer.cpp:201-203 | Once a session is open, the job acts under the advertised family iff it is the family of the request; before, nothing is sent |
| `KeypadPairer.OtherFamilyLinked` | components/switchbot_keypad_bridge/pairing_ui.cpp:541-544 | A keypad that advertises one family can be linked in full as the other, against what the wizard states |
| `KeypadPairer.KeypadPairer.OpenSlot` | components/switchbot_keypad_bridge/keypad_pairer.cpp:264-282 | Step 3: the opening commands sent, up to the first checked one that fails |
| `KeypadPairer.KeypadPairer.OpenSession` | components/switchbot_keypad_bridge/keypad_pairer.cpp:193-250 | Steps 0 to 2 and the step the job stops at |
| `KeypadPairer.KeypadPairer.WriteSlot` | components/switchbot_keypad_bridge/keypad_pairer.cpp:284-299 | Steps 4 to 6: both key halves and the target, up to the first that fails |
| `KeypadPairer.KeypadPairer.Finish` | components/switchbot_keypad_bridge/keypad_pairer.cpp:301-314 | The final commands, and the doorbell step for the Vision family only |
| `LockLinker.LockLinker.Start` | components/switchbot_keypad_bridge/lock_linker.cpp:83-92 | Starts with seven steps and cleared results, or changes nothing; either way the hand-off's start step |
| `LockLinker.LockLinker.ConnectLock` | components/switchbot_keypad_bridge/physical_lock.cpp:460-504 | Connects iff one of at most two attempts does; the step never goes back when the connection is retried |
| `LockLinker.LockLinker.ProvisionAndVerify` | components/switchbot_keypad_bridge/physical_lock.cpp:323-458 | Succeeds iff every call does, with the answers collected; otherwise it stops at the last step reached; the commands sent are those reached |
| `LockLinker.LockLinker.RunProvisioning` | components/switchbot_keypad_bridge/physical_lock.cpp:407-428 | The commands are sent one by one until one is not answered, each with its step |
| `LockLinker.ProvisionedLock` | components/switchbot_keypad_bridge/lock_linker.cpp:40-56 | A lock that obeys the four provisioning commands holds exactly the key, in that slot |
| `LockLinker.PlausibleExactly` | components/switchbot_keypad_bridge/lock_linker.cpp:58-73 | The answers are plausible iff there are four and they are an obedient lock's, the first one possibly empty |
| `LockLinker.LockLinker.Execute` | components/switchbot_keypad_bridge/lock_linker.cpp:131-204 | A lawful history; success iff the whole link succeeds, and only then the identity and slot it wrote are shown: the slot asked for, or 0x88; the provisioning commands for that slot and key are sent as far as reached; otherwise the last step reached; the job ends as the hand-off's job task does |
| `LockLinker.LinkStopExact` | components/switchbot_keypad_bridge/physical_lock.cpp:323-458 | A link stops at the step of the first failing call in the order of the calls, and nowhere iff every call succeeds |
| `GcmIv.IncrementGcmIv` | components/switchbot_keypad_bridge/physical_lock.cpp:105-109 | The in-place carry loop computes the big-endian successor |
| `GcmIv.IncrementIvAddsOne` | components/switchbot_keypad_bridge/physical_lock.cpp:105-109 | The successor of a 12-byte IV is its value plus one modulo 2^96 |
| `GcmIv.IncrementUndone` | components/switchbot_keypad_bridge/physical_lock.cpp:105-109 | An increment is undone by exactly 2^96 - 1 further ones and by no fewer |

## Left out

- PSA, mbedTLS and the block cipher itself; secrecy and authentication claims.
- The cloud client, HTTPS, JSON, HTTP routing, login and gating checks of the handlers, and the page.
- Scanning, connecting, subscribing and GATT writes: reduced to success or failure.
- Advertisement classifiers, battery parsers, model tables and MAC helpers: table lookups that would add only easy members.
- Battery scans, NVS persistence, sensors, logging and ESPHome code generation.
- The relay of a payload to a linked physical lock, and its outcome fields: linked mode answers the keypad by the same path as standalone mode, which is what is modelled.
- The rest of what the reset button does: forgetting names, stored identities and battery values, and reopening the wizard.
- Time: scan windows, semaphore timeouts, idle shutdown of the wizard. Delivery of every job success is not claimed, since a new start before the next poll overwrites one.
- Texts of the job status (messages, errors, step labels), the command that verifies the shared key and the check of its answer.
- Aliasing of context records: the program copies them by value, and so do the records here, rings included.
- LockSession.LockSession.ForgetSlot: asks for no valid record, which the program does not check, because its only caller has just reset the session.
- JobHandoff.CallbacksExact: assumes distinct job ids, because the ids are read from a clock that is not modelled.
- JobHandoff.RunInv: the sections of the job and HTTP tasks are steps on values, because what is proved is about their interleaving; their in-place forms are in KeypadPairer, LockLinker and PairingUi without interleaving.
- Bridge.Bridge.Drain: events arrive between the swap and each handled event, not inside the handling of one; that handling never reads the queue.
