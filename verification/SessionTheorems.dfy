/** What the encrypted session guarantees over every run. */
module SessionTheorems {
  import opened Bytes
  import opened AesCtr
  import opened KeypadFrames
  import opened LockProtocol
  import opened SessionSpec
  import opened SessionTrace
  import opened SessionInvariant

  // ----- Runs and their prefixes ---------------------------------------------

  /** The j-th observation of a run was made in the state after the first j events. */
  lemma {:induction false} RunPrefix(env: Env, events: seq<Event>, j: nat)
    requires j < |events|
    ensures var (st, tr) := Run(env, events[..j]);
            tr == Run(env, events).1[..j] && Run(env, events).1[j] == Observe(env, st, events[j])
    decreases |events|
  {
    var before := events[..|events| - 1];
    if j < |events| - 1 {
      RunPrefix(env, before, j);
      assert before[..j] == events[..j];
    }
  }

  lemma RunPrefixInv(env: Env, events: seq<Event>, j: nat)
    requires j < |events|
    ensures var (st, tr) := Run(env, events[..j]);
            tr == Run(env, events).1[..j] && Inv(st, tr) && Plausible(st, Run(env, events).1[j])
  {
    RunPrefix(env, events, j);
    RunInv(env, events[..j]);
    ObservePlausible(env, Run(env, events[..j]).0, events[j]);
  }

  // ----- Hand-off ------------------------------------------------------------

  /** An IV request is recognised from exactly its own bytes. */
  lemma RequestBytesExact(frame: seq<byte>)
    ensures IsIvRequest(frame) <==> IsRequestBytes(frame)
  {
    if |frame| >= 8 {
      assert frame[..7] == IV_REQUEST_PREFIX <==>
             frame[0] == 0x57 && frame[1] == 0x00 && frame[2] == 0x00 && frame[3] == 0x00 &&
             frame[4] == 0x0F && frame[5] == 0x21 && frame[6] == 0x03;
    }
  }

  /** A payload of a slot encrypted under an IV, as a keypad sends it. */
  function EncryptFrame(env: Env, key: Key, slot: byte, iv: Iv, plaintext: seq<byte>): seq<byte> {
    [0x57, slot, iv[0], iv[1]] + Xcrypt(env.keystream, key, iv, plaintext)
  }

  lemma FrameBuilt(env: Env, key: Key, slot: byte, iv: Iv, plaintext: seq<byte>)
    requires slot != 0x00 && 1 <= |plaintext| <= 32
    ensures var frame := EncryptFrame(env, key, slot, iv, plaintext);
            IsFrameUnder(frame, slot, iv) && Xcrypt(env.keystream, key, iv, frame[4..]) == plaintext
  {
    var frame := EncryptFrame(env, key, slot, iv, plaintext);
    assert frame[4..] == Xcrypt(env.keystream, key, iv, plaintext);
    XcryptInvolution(env.keystream, key, iv, plaintext);
  }

  /** Position `i` generated the predecessor of the latest generation. */
  predicate GeneratedPredecessor(tr: Trace, i: nat) {
    EpochStart(tr) <= i < |tr| && NewIv(tr[i]) && tr[i].gen + 2 == Issued(tr)
  }

  /** A frame naming the superseded generation finds it, or finds nothing once
      the hand-off is over. */
  ghost predicate MatchedLate(st: State, tr: Trace, m: Option<Generation>, id: nat, iv: Iv)
    requires Superseded(tr)
  {
    if m.Some? then
      && m == Predecessor(st.phase) && m.value.id == id && m.value.iv == iv
      && m.value.log == Actions(tr, id)
      && (LateActionAllowed(st.phase) <==> st.slot == 0xC6 && Open(tr))
    else
      !(st.slot == 0xC6 && Open(tr))
  }

  lemma IdsIncrease(st: State, tr: Trace, i: nat, k: nat)
    requires IdsFit(st, tr) && i < |tr| && k < |tr| && NewIv(tr[i]) && NewIv(tr[k]) && tr[i].gen < tr[k].gen
    ensures i < k
  {
    assert IdFits(tr[i], Issued(tr[..i])) && IdFits(tr[k], Issued(tr[..k]));
    if k < i {
      assert tr[..i][..k] == tr[..k];
      IssuedMonotone(tr[..i], k);
    }
  }

  /** The latest generation's sequence bytes differ from its predecessor's, and
      the predecessor's IV is the one still held, if it is held. */
  lemma PredecessorIv(st: State, tr: Trace, i: nat)
    requires Inv(st, tr) && Superseded(tr) && GeneratedPredecessor(tr, i)
    ensures forall g :: Holds(st.phase, g) && g.id == Issued(tr) - 2 ==> g.iv == tr[i].iv
    ensures forall g :: Holds(st.phase, g) && g.id == Issued(tr) - 1 ==> !SameSeq(tr[i].iv, g.iv)
  {
    EpochMeaning(tr);
    forall g | Holds(st.phase, g) && g.id == Issued(tr) - 2
      ensures g.iv == tr[i].iv
    {
      var k :| EpochStart(tr) <= k < |tr| && IssuedAt(tr[k], g.id, g.iv, st.slot);
      NewIvUnique(st, tr, i, k);
    }
    forall g | Holds(st.phase, g) && g.id == Issued(tr) - 1
      ensures !SameSeq(tr[i].iv, g.iv)
    {
      var k :| EpochStart(tr) <= k < |tr| && IssuedAt(tr[k], g.id, g.iv, st.slot);
      IdsIncrease(st, tr, i, k);
      assert SameEpoch(tr, i, k);
    }
  }

  lemma LateFits(st: State, s: Summary, iv: Iv)
    requires PhaseFits(st, s) && s.inEpoch >= 2
    requires forall g :: Holds(st.phase, g) && g.id == s.issued - 2 ==> g.iv == iv
    requires forall g :: Holds(st.phase, g) && g.id == s.issued - 1 ==> !SameSeq(iv, g.iv)
    ensures var m := Match(st.phase, iv[0], iv[1]);
            if m.Some? then
              && m == Predecessor(st.phase) && Holds(st.phase, m.value)
              && m.value.id == s.issued - 2 && m.value.iv == iv
              && (LateActionAllowed(st.phase) <==> st.slot == 0xC6 && s.open)
            else !(st.slot == 0xC6 && s.open)
    ensures Match(st.phase, iv[0], iv[1]).Some? <==> !s.latestUsed || (st.slot == 0xC6 && s.open)
  {
    match st.phase
    case Handoff(a, p, _) => assert Holds(st.phase, a) && Holds(st.phase, p);
    case Overlap(a, r) => assert Holds(st.phase, a) && Holds(st.phase, r);
    case Steady(a) => assert Holds(st.phase, a);
    case _ =>
  }

  lemma MatchSuperseded(st: State, tr: Trace, i: nat)
    requires Inv(st, tr) && Superseded(tr) && GeneratedPredecessor(tr, i)
    ensures MatchedLate(st, tr, Match(st.phase, tr[i].iv[0], tr[i].iv[1]), tr[i].gen, tr[i].iv)
    ensures var s := Summarize(tr);
            Match(st.phase, tr[i].iv[0], tr[i].iv[1]).Some? <==> !s.latestUsed || (st.slot == 0xC6 && s.open)
  {
    var s := Summarize(tr);
    assert s.open <==> Open(tr);
    PredecessorIv(st, tr, i);
    LateFits(st, s, tr[i].iv);
  }

  lemma ObserveUnder(env: Env, st: State, frame: seq<byte>, g: Generation)
    requires IsFrameUnder(frame, st.slot, g.iv) && Match(st.phase, frame[2], frame[3]) == Some(g)
    ensures Observe(env, st, Rx(frame, true)) == ObserveReadable(env, st, g, frame[4..])
  {
    RequestBytesExact(frame);
  }

  /** Once a generation is superseded, a readable frame under it that is not a
      poll is accepted exactly when it is an unlock by a known method that the
      replay window does not hold, on the Vision slot, while the one-shot
      hand-off is open; and then it is accepted under that generation. */
  lemma HandoffExact(env: Env, events: seq<Event>, i: nat, frame: seq<byte>)
    requires var (st, tr) := Run(env, events);
             && Superseded(tr) && GeneratedPredecessor(tr, i)
             && IsFrameUnder(frame, st.slot, tr[i].iv)
             && !IsPollBytes(Xcrypt(env.keystream, st.key, tr[i].iv, frame[4..]))
    ensures var (st, tr) := Run(env, events);
            var o := Observe(env, st, Rx(frame, true));
            var plaintext := Xcrypt(env.keystream, st.key, tr[i].iv, frame[4..]);
            && (Accepted(o) <==>
                  && IsFastUnlockBytes(plaintext)
                  && !InWindow(tr, tr[i].gen, frame[4..])
                  && st.slot == 0xC6
                  && Open(tr))
            && (Accepted(o) ==> o.gen == tr[i].gen && o.plaintext == plaintext && o.command == Decode(plaintext))
  {
    var (st, tr) := Run(env, events);
    Classification(Xcrypt(env.keystream, st.key, tr[i].iv, frame[4..]));
    WindowIsRecent(tr, tr[i].gen, frame[4..]);
    var m := Match(st.phase, frame[2], frame[3]);
    assert MatchedLate(st, tr, m, tr[i].gen, tr[i].iv) by {
      RunInv(env, events);
      MatchSuperseded(st, tr, i);
    }
    if m.Some? {
      ObserveUnder(env, st, frame, m.value);
    } else {
      RequestBytesExact(frame);
      assert Observe(env, st, Rx(frame, true)) == Unmatched;
    }
  }

  lemma SummaryReads(tr: Trace)
    ensures Summarize(tr).issued == Issued(tr)
    ensures Summarize(tr).open <==> Superseded(tr) && Open(tr)
    ensures Summarize(tr).latestUsed <==> LatestUsed(tr)
  {
  }

  /** A state poll under the superseded generation is answered exactly while that
      generation is held: until its successor is first used, and after that only
      while the hand-off is open on the Vision slot. */
  lemma PredecessorPollExact(env: Env, events: seq<Event>, i: nat, frame: seq<byte>)
    requires var (st, tr) := Run(env, events);
             && Superseded(tr) && GeneratedPredecessor(tr, i)
             && IsFrameUnder(frame, st.slot, tr[i].iv)
             && IsPollBytes(Xcrypt(env.keystream, st.key, tr[i].iv, frame[4..]))
    ensures var (st, tr) := Run(env, events);
            var o := Observe(env, st, Rx(frame, true));
            && (Accepted(o) <==> !LatestUsed(tr) || (st.slot == 0xC6 && Open(tr)))
            && (Accepted(o) ==> o.gen == tr[i].gen && o.command.kind == StatePoll)
  {
    var (st, tr) := Run(env, events);
    Classification(Xcrypt(env.keystream, st.key, tr[i].iv, frame[4..]));
    var m := Match(st.phase, frame[2], frame[3]);
    var s := Summarize(tr);
    assert (m.Some? <==> !s.latestUsed || (st.slot == 0xC6 && s.open)) &&
           (m.Some? ==> m.value.id == tr[i].gen && m.value.iv == tr[i].iv) by {
      RunInv(env, events);
      MatchSuperseded(st, tr, i);
    }
    SummaryReads(tr);
    if m.Some? {
      ObserveUnder(env, st, frame, m.value);
    } else {
      RequestBytesExact(frame);
      assert Observe(env, st, Rx(frame, true)) == Unmatched;
    }
  }

  /** On the Vision slot, while the hand-off is open, the superseded generation serves
      state polls and the unlocks by PIN, NFC, fingerprint or face that its replay
      window does not hold, and nothing else; whatever their other bytes. */
  lemma LateFrameExact(env: Env, events: seq<Event>, i: nat, plaintext: seq<byte>)
    requires var (st, tr) := Run(env, events);
             Superseded(tr) && Open(tr) && GeneratedPredecessor(tr, i) && st.slot == 0xC6
    requires 1 <= |plaintext| <= 32
    ensures var (st, tr) := Run(env, events);
            var frame := EncryptFrame(env, st.key, 0xC6, tr[i].iv, plaintext);
            var o := Observe(env, st, Rx(frame, true));
            && (Accepted(o) <==>
                  || IsPollBytes(plaintext)
                  || (&& IsUnlockBytes(plaintext) && plaintext[4] in {0x04, 0x08, 0x0C, 0x18}
                      && !InWindow(tr, tr[i].gen, frame[4..])))
            && (Accepted(o) ==> o.gen == tr[i].gen)
  {
    var (st, tr) := Run(env, events);
    var frame := EncryptFrame(env, st.key, 0xC6, tr[i].iv, plaintext);
    FrameBuilt(env, st.key, 0xC6, tr[i].iv, plaintext);
    if IsPollBytes(plaintext) {
      PredecessorPollExact(env, events, i, frame);
    } else {
      HandoffExact(env, events, i, frame);
    }
  }

  // ----- The latest generation -----------------------------------------------

  /** Position `i` generated the latest generation, in the current epoch. */
  predicate GeneratedLatest(tr: Trace, i: nat) {
    EpochStart(tr) <= i < |tr| && NewIv(tr[i]) && tr[i].gen + 1 == Issued(tr)
  }

  lemma LatestFits(st: State, s: Summary, iv: Iv)
    requires PhaseFits(st, s) && s.inEpoch >= 1
    requires forall g :: Holds(st.phase, g) && g.id == s.issued - 1 ==> g.iv == iv
    ensures var m := Match(st.phase, iv[0], iv[1]);
            m.Some? && Holds(st.phase, m.value) && m.value.id == s.issued - 1 && m.value.iv == iv
            && Predecessor(st.phase) != m
  {
    match st.phase
    case First(p) => assert Holds(st.phase, p);
    case Handoff(_, p, _) => assert Holds(st.phase, p);
    case Overlap(a, _) => assert Holds(st.phase, a);
    case Steady(a) => assert Holds(st.phase, a);
    case _ =>
  }

  lemma MatchLatest(st: State, tr: Trace, i: nat)
    requires Inv(st, tr) && GeneratedLatest(tr, i)
    ensures var m := Match(st.phase, tr[i].iv[0], tr[i].iv[1]);
            && m.Some? && m.value.id == tr[i].gen && m.value.iv == tr[i].iv
            && m.value.log == Actions(tr, tr[i].gen) && Predecessor(st.phase) != m
  {
    EpochMeaning(tr);
    assert SameEpoch(tr, i, |tr| - 1);
    forall g | Holds(st.phase, g) && g.id == Issued(tr) - 1
      ensures g.iv == tr[i].iv
    {
      var k :| EpochStart(tr) <= k < |tr| && IssuedAt(tr[k], g.id, g.iv, st.slot);
      NewIvUnique(st, tr, i, k);
    }
    LatestFits(st, Summarize(tr), tr[i].iv);
  }

  /** A readable frame under the latest generation is accepted unless it is a LOCK
      or UNLOCK that the replay window of that generation holds. */
  lemma LatestExact(env: Env, events: seq<Event>, i: nat, frame: seq<byte>)
    requires var (st, tr) := Run(env, events);
             GeneratedLatest(tr, i) && IsFrameUnder(frame, st.slot, tr[i].iv)
    ensures var (st, tr) := Run(env, events);
            var o := Observe(env, st, Rx(frame, true));
            var plaintext := Xcrypt(env.keystream, st.key, tr[i].iv, frame[4..]);
            && o.Attempt? && o.gen == tr[i].gen && o.iv == tr[i].iv && o.key == st.key && o.slot == st.slot
            && o.ciphertext == frame[4..] && o.plaintext == plaintext && o.command == Decode(plaintext)
            && (o.accepted <==> !(IsActionBytes(plaintext) && InWindow(tr, tr[i].gen, frame[4..])))
  {
    var (st, tr) := Run(env, events);
    Classification(Xcrypt(env.keystream, st.key, tr[i].iv, frame[4..]));
    WindowIsRecent(tr, tr[i].gen, frame[4..]);
    var m := Match(st.phase, frame[2], frame[3]);
    assert m.Some? && m.value.id == tr[i].gen && m.value.iv == tr[i].iv
           && m.value.log == Actions(tr, tr[i].gen) && Predecessor(st.phase) != m by {
      RunInv(env, events);
      MatchLatest(st, tr, i);
    }
    ObserveUnder(env, st, frame, m.value);
  }

  // ----- Retention -----------------------------------------------------------

  lemma OverlapFits(st: State, s: Summary)
    requires PhaseFits(st, s)
    ensures st.phase.Overlap? <==> s.open && st.slot == 0xC6 && s.latestUsed
  {
  }

  /** The predecessor is retained after a promotion exactly while the hand-off is
      open on the Vision slot and the latest generation has been used. */
  lemma RetainedExactly(env: Env, events: seq<Event>)
    ensures var (st, tr) := Run(env, events);
            st.phase.Overlap? <==>
            && Superseded(tr) && Open(tr) && st.slot == 0xC6
            && LatestUsed(tr)
  {
    var (st, tr) := Run(env, events);
    var s := Summarize(tr);
    assert st.phase.Overlap? <==> s.open && st.slot == 0xC6 && s.latestUsed by {
      RunInv(env, events);
      OverlapFits(st, s);
    }
    SummaryReads(tr);
  }

  /** A retained predecessor does not outlive one matched frame, whatever the
      frame's length, readability, command or outcome; nor an IV request, a
      transport boundary or a reset. Nothing else touches it. */
  lemma RetiredLivesOneFrame(env: Env, events: seq<Event>, ev: Event)
    requires Run(env, events).0.phase.Overlap?
    ensures var st := Run(env, events).0;
            var o := Observe(env, st, ev);
            var phase := Run(env, events + [ev]).0.phase;
            if o.Unmatched? || o.Rekeyed? then phase == st.phase else !phase.Overlap?
  {
    var st := Run(env, events).0;
    RunInv(env, events);
    RunExtends(env, events, ev);
    ObservePlausible(env, st, ev);
  }

  lemma EncryptedContents(env: Env, st: State, frame: seq<byte>, cryptoOk: bool)
    requires ObserveEncrypted(env, st, frame, cryptoOk).Attempt?
    ensures var o := ObserveEncrypted(env, st, frame, cryptoOk);
            && cryptoOk && 5 <= |frame| <= 36 && frame[0] == 0x57
            && frame[1] == o.slot && frame[2] == o.iv[0] && frame[3] == o.iv[1]
            && o.ciphertext == frame[4..]
            && o.plaintext == Xcrypt(env.keystream, o.key, o.iv, o.ciphertext) && o.command == Decode(o.plaintext)
  {
    MatchHolds(st.phase, frame[2], frame[3]);
  }

  lemma AttemptContents(env: Env, st: State, ev: Event)
    requires Observe(env, st, ev).Attempt?
    ensures var o := Observe(env, st, ev);
            && ev.Rx? && ev.cryptoOk && 5 <= |ev.frame| <= 36 && ev.frame[0] == 0x57
            && ev.frame[1] == o.slot && ev.frame[2] == o.iv[0] && ev.frame[3] == o.iv[1]
            && o.ciphertext == ev.frame[4..]
            && o.plaintext == Xcrypt(env.keystream, o.key, o.iv, o.ciphertext) && o.command == Decode(o.plaintext)
  {
    assert ev.Rx? && !IsIvRequest(ev.frame);
    EncryptedContents(env, st, ev.frame, ev.cryptoOk);
  }

  // ----- The command field ---------------------------------------------------

  lemma HandoffAllowsFits(st: State, s: Summary, g: Generation, command: DecodedCommand)
    requires PhaseFits(st, s) && Holds(st.phase, g)
    ensures Predecessor(st.phase) == Some(g) <==> Predecessor(st.phase).Some? && Predecessor(st.phase).value.id == g.id
    ensures HandoffAllows(st.phase, g.id, command) <==>
            || g.id + 1 == s.issued || command.kind == StatePoll
            || (IsFastUnlock(command) && st.slot == 0xC6 && s.open)
  {
  }

  /** A frame that is dropped leaves its decoded command in the command field
      exactly when the replay window alone rejected it: it was read, it is a LOCK or
      UNLOCK held by its generation's window, and the generation is the latest one
      or the open hand-off would have let it act. Every other dropped frame leaves
      the field blank. */
  lemma StaleCommandExact(env: Env, events: seq<Event>, ev: Event)
    ensures var (st, tr) := Run(env, events);
            var o := Observe(env, st, ev);
            !Accepted(o) ==>
              (CommandAfter(st.phase, o) != NO_COMMAND <==>
                && o.Attempt? && IsActionBytes(o.plaintext) && InWindow(tr, o.gen, o.ciphertext)
                && (|| o.gen + 1 == Issued(tr)
                    || (Superseded(tr) && IsFastUnlockBytes(o.plaintext) && st.slot == 0xC6 && Open(tr))))
  {
    var (st, tr) := Run(env, events);
    var o := Observe(env, st, ev);
    ObservePlausible(env, st, ev);
    if o.Attempt? && !o.accepted {
      RunInv(env, events);
      SummaryReads(tr);
      var g :| Holds(st.phase, g) && g.id == o.gen && g.iv == o.iv &&
               o.accepted == Admits(st.phase, g, o.command, o.ciphertext);
      HandoffAllowsFits(st, Summarize(tr), g, o.command);
      AttemptContents(env, st, ev);
      Classification(o.plaintext);
      WindowIsRecent(tr, o.gen, o.ciphertext);
    }
  }

  // ----- Order and number of side effects ------------------------------------

  lemma AttemptFits(st: State, s: Summary, o: Observation)
    requires PhaseFits(st, s) && Plausible(st, o) && o.Attempt?
    ensures o.gen + 1 == s.issued || o.gen + 2 == s.issued
    ensures o.gen + 2 == s.issued && SideEffect(o) ==>
              s.open && IsFastUnlock(o.command) && o.slot == 0xC6
  {
  }

  /** A frame that is read belongs to the latest generation or to its
      predecessor; a side effect of the predecessor needs the open hand-off. */
  lemma AttemptCases(env: Env, events: seq<Event>, j: nat)
    requires j < |events| && Run(env, events).1[j].Attempt?
    ensures var tr := Run(env, events).1;
            var before := tr[..j];
            && (tr[j].gen + 1 == Issued(before) || tr[j].gen + 2 == Issued(before))
            && (tr[j].gen + 2 == Issued(before) && SideEffect(tr[j]) ==>
                  && Superseded(before) && Open(before) && IsFastUnlockBytes(tr[j].plaintext)
                  && tr[j].slot == 0xC6)
  {
    var o := Run(env, events).1[j];
    var before := Run(env, events).1[..j];
    var s := Summarize(before);
    assert && (o.gen + 1 == s.issued || o.gen + 2 == s.issued)
           && (o.gen + 2 == s.issued && SideEffect(o) ==>
                 s.open && IsFastUnlock(o.command) && o.slot == 0xC6) by {
      RunPrefixInv(env, events, j);
      AttemptFits(Run(env, events[..j]).0, s, o);
    }
    SummaryReads(before);
    RunPrefix(env, events, j);
    AttemptContents(env, Run(env, events[..j]).0, events[j]);
    Classification(o.plaintext);
  }

  lemma IdFitsAt(env: Env, events: seq<Event>, i: nat)
    requires i < |events|
    ensures var tr := Run(env, events).1; IdFits(tr[i], Issued(tr[..i]))
  {
    RunInv(env, events);
  }

  lemma IssuedPrefix(tr: Trace, i: nat, j: nat)
    requires i <= j <= |tr|
    ensures Issued(tr[..i]) <= Issued(tr[..j])
    ensures i < j && NewIv(tr[i]) ==> Issued(tr[..i]) < Issued(tr[..j])
    decreases j - i
  {
    if i < j {
      assert Init(tr[..i + 1]) == tr[..i] && Last(tr[..i + 1]) == tr[i];
      IssuedPrefix(tr, i + 1, j);
    }
  }

  lemma SideEffectsInWindow(tr: Trace, i: nat)
    requires Superseded(tr) && Open(tr) && i < |tr| && SideEffect(tr[i])
    requires IdFits(tr[i], Issued(tr[..i])) && Issued(tr) >= 2
    ensures tr[i].gen + 2 <= Issued(tr)
    ensures tr[i].gen + 2 == Issued(tr) ==> i < WindowStart(tr)
  {
    IssuedMonotone(tr, i);
    WindowStartMeaning(tr);
  }

  /** Side effects never go back in time: over any run, resets and slot changes
      included, the generations of accepted non-polls never decrease. */
  lemma SideEffectsMonotone(env: Env, events: seq<Event>, i: nat, j: nat)
    requires i < j < |events|
    requires var tr := Run(env, events).1; SideEffect(tr[i]) && SideEffect(tr[j])
    ensures var tr := Run(env, events).1; tr[i].gen <= tr[j].gen
  {
    var tr := Run(env, events).1;
    AttemptCases(env, events, j);
    IdFitsAt(env, events, i);
    IssuedPrefix(tr, i, j);
    if tr[j].gen + 2 == Issued(tr[..j]) {
      assert tr[..j][..i] == tr[..i];
      SideEffectsInWindow(tr[..j], i);
    }
  }

  /** A side effect under an already superseded generation happened inside the
      open window that its successor's IV began. */
  lemma LateWindow(env: Env, events: seq<Event>, k: nat, j: nat)
    requires k < j < |events|
    requires var tr := Run(env, events).1; SideEffect(tr[j]) && NewIv(tr[k]) && tr[k].gen == tr[j].gen + 1
    ensures var tr := Run(env, events).1;
            && tr[j].gen + 2 == Issued(tr[..j])
            && WindowStart(tr[..j]) == k + 1
            && Superseded(tr[..j]) && Open(tr[..j])
  {
    var tr := Run(env, events).1;
    var before := tr[..j];
    AttemptCases(env, events, j);
    IdFitsAt(env, events, k);
    IssuedPrefix(tr, k, j);
    WindowStartMeaning(before);
    var w := WindowStart(before) - 1;
    assert before[w] == tr[w] && before[..w] == tr[..w];
    IdFitsAt(env, events, w);
    IssuedMonotone(before, w);
    assert before[k] == tr[k];
    if k < w {
      IssuedPrefix(tr, k, w);
      IssuedPrefix(tr, w, j);
    }
  }

  /** One late action a generation: once its successor has been generated, at
      most one further non-poll is accepted under it, before or after the
      promotion and through any retries and resets. */
  lemma OneLateAction(env: Env, events: seq<Event>, k: nat, i: nat, j: nat)
    requires k < i < j < |events|
    requires var tr := Run(env, events).1;
             NewIv(tr[k]) && SideEffect(tr[i]) && SideEffect(tr[j]) && tr[k].gen == tr[i].gen + 1
    ensures var tr := Run(env, events).1; tr[i].gen != tr[j].gen
  {
    var tr := Run(env, events).1;
    if tr[i].gen == tr[j].gen {
      LateWindow(env, events, k, j);
      IdFitsAt(env, events, i);
      assert tr[..j][..i] == tr[..i];
      SideEffectsInWindow(tr[..j], i);
    }
  }

  /** A late action never crosses a connection boundary or a reset. */
  lemma LateActionInOneConnection(env: Env, events: seq<Event>, k: nat, b: nat, j: nat)
    requires k < b < j < |events|
    requires var tr := Run(env, events).1; SideEffect(tr[j]) && NewIv(tr[k]) && tr[k].gen == tr[j].gen + 1
    ensures var tr := Run(env, events).1; !tr[b].Boundary? && !tr[b].Cleared?
  {
    LateWindow(env, events, k, j);
    var before := Run(env, events).1[..j];
    assert before[b] == Run(env, events).1[b];
  }

  // ----- No stranded command -------------------------------------------------

  /** The IV advertised at position `i` has neither been used by a readable frame
      nor been dropped by a reset or a slot change since. */
  predicate Outstanding(tr: Trace, i: nat) {
    && i < |tr| && tr[i].Advertised?
    && forall j :: i < j < |tr| ==> !Hard(tr[j]) && !AttemptBy(tr[j], tr[i].gen)
  }

  lemma PendingStep(st: State, o: Observation)
    requires Plausible(st, o) && HasPending(st.phase)
    requires st.phase.Handoff? ==> st.phase.active.id != st.phase.pending.id
    requires !Hard(o) && !AttemptBy(o, st.phase.pending.id)
    ensures HasPending(Apply(st, o).phase) && Apply(st, o).phase.pending == st.phase.pending
    ensures Apply(st, o).slot == st.slot
  {
  }

  /** An outstanding IV is the pending one, whatever retries, junk, predecessor
      frames and reconnections came after it. */
  lemma {:induction false} PendingPersists(env: Env, events: seq<Event>, i: nat)
    requires Outstanding(Run(env, events).1, i)
    ensures var (st, tr) := Run(env, events);
            && HasPending(st.phase) && st.slot == tr[i].slot
            && st.phase.pending.id == tr[i].gen && st.phase.pending.iv == tr[i].iv
    decreases |events|
  {
    var before := events[..|events| - 1];
    var (st, tr) := Run(env, before);
    var o := Observe(env, st, events[|events| - 1]);
    ObservePlausible(env, st, events[|events| - 1]);
    if i < |tr| {
      assert Run(env, events).1 == tr + [o];
      assert !Hard(o) && !AttemptBy(o, tr[i].gen) by {
        assert Run(env, events).1[|tr|] == o;
      }
      assert Outstanding(tr, i) by {
        assert forall j :: 0 <= j < |tr| ==> tr[j] == Run(env, events).1[j];
      }
      PendingPersists(env, before, i);
      assert st.phase.Handoff? ==> st.phase.active.id != st.phase.pending.id by {
        RunInv(env, before);
      }
      PendingStep(st, o);
    }
  }

  lemma PendingFits(env: Env, events: seq<Event>)
    requires HasPending(Run(env, events).0.phase)
    ensures var phase := Run(env, events).0.phase;
            && phase.pending.log == []
            && (phase.Handoff? ==> phase.active.id != phase.pending.id)
  {
    RunInv(env, events);
  }

  lemma ObservePending(env: Env, st: State, plaintext: seq<byte>)
    requires HasPending(st.phase) && st.phase.pending.log == []
    requires st.phase.Handoff? ==> st.phase.active.id != st.phase.pending.id
    requires st.slot != 0x00 && 1 <= |plaintext| <= 32
    ensures var p := st.phase.pending;
            var o := Observe(env, st, Rx(EncryptFrame(env, st.key, st.slot, p.iv, plaintext), true));
            && Accepted(o) && o.gen == p.id && o.plaintext == plaintext && o.command == Decode(plaintext)
  {
    var p := st.phase.pending;
    var frame := EncryptFrame(env, st.key, st.slot, p.iv, plaintext);
    XcryptInvolution(env.keystream, st.key, p.iv, plaintext);
    assert frame[4..] == Xcrypt(env.keystream, st.key, p.iv, plaintext);
    assert frame[1] == st.slot && IV_REQUEST_PREFIX[1] == 0x00;
    assert !IsIvRequest(frame) by {
      if |frame| >= 8 {
        assert frame[..7][1] == st.slot;
      }
    }
  }

  /** No command is stranded: any payload of 1 to 32 bytes encrypted under an
      outstanding IV is accepted, yields exactly that payload and promotes the IV. */
  lemma NoStrandedCommand(env: Env, events: seq<Event>, i: nat, plaintext: seq<byte>)
    requires Outstanding(Run(env, events).1, i)
    requires Run(env, events).1[i].slot != 0x00 && 1 <= |plaintext| <= 32
    ensures var (st, tr) := Run(env, events);
            var frame := EncryptFrame(env, st.key, tr[i].slot, tr[i].iv, plaintext);
            var (after, trace) := Run(env, events + [Rx(frame, true)]);
            var o := trace[|tr|];
            && Accepted(o) && o.gen == tr[i].gen && o.plaintext == plaintext && o.command == Decode(plaintext)
            && (after.phase.Steady? || after.phase.Overlap?)
            && after.phase.active.id == tr[i].gen && after.phase.active.iv == tr[i].iv
  {
    var (st, tr) := Run(env, events);
    var frame := EncryptFrame(env, st.key, tr[i].slot, tr[i].iv, plaintext);
    PendingPersists(env, events, i);
    PendingFits(env, events);
    ObservePending(env, st, plaintext);
    RunExtends(env, events, Rx(frame, true));
  }

  // ----- A replayed command --------------------------------------------------

  lemma LatestStays(env: Env, events: seq<Event>, i: nat, frame: seq<byte>)
    requires var (st, tr) := Run(env, events); GeneratedLatest(tr, i) && Observe(env, st, Rx(frame, true)).Attempt?
    ensures var (st, tr) := Run(env, events);
            var (after, trace) := Run(env, events + [Rx(frame, true)]);
            && trace == tr + [Observe(env, st, Rx(frame, true))] && trace[i] == tr[i] && GeneratedLatest(trace, i)
            && after.slot == st.slot && after.key == st.key
  {
    var (st, tr) := Run(env, events);
    RunExtends(env, events, Rx(frame, true));
    CountsExtend(tr, Observe(env, st, Rx(frame, true)));
  }

  lemma JustAccepted(tr: Trace, o: Observation, g: nat)
    requires ActionBy(o, g)
    ensures InWindow(tr + [o], g, o.ciphertext)
  {
    assert (tr + [o])[|tr|] == o;
    assert IsRecentAction(tr + [o], |tr|, g);
  }

  /** Sending an accepted LOCK or UNLOCK of the latest generation once more has it
      dropped, and leaves it in the command field. */
  lemma RepeatedActionShown(env: Env, events: seq<Event>, i: nat, frame: seq<byte>)
    requires var (st, tr) := Run(env, events);
             && GeneratedLatest(tr, i) && IsFrameUnder(frame, st.slot, tr[i].iv)
             && ActionBy(Observe(env, st, Rx(frame, true)), tr[i].gen)
    ensures var o := Observe(env, Run(env, events).0, Rx(frame, true));
            var after := Run(env, events + [Rx(frame, true)]).0;
            var repeated := Observe(env, after, Rx(frame, true));
            !Accepted(repeated) && CommandAfter(after.phase, repeated) == o.command != NO_COMMAND
  {
    var (st, tr) := Run(env, events);
    var o := Observe(env, st, Rx(frame, true));
    var later := events + [Rx(frame, true)];
    LatestExact(env, events, i, frame);
    LatestStays(env, events, i, frame);
    JustAccepted(tr, o, o.gen);
    Classification(o.plaintext);
    LatestExact(env, later, i, frame);
    StaleCommandExact(env, later, Rx(frame, true));
  }

  lemma FirstRequest(env: Env, request: seq<byte>)
    requires IsRequestBytes(request)
    ensures var (st, tr) := Run(env, [Rx(request, true)]);
            Outstanding(tr, 0) && GeneratedLatest(tr, 0) && tr[0].slot == st.slot == request[7]
  {
    RequestBytesExact(request);
    RunExtends(env, [], Rx(request, true));
    assert [] + [Rx(request, true)] == [Rx(request, true)];
    var o := Observe(env, INITIAL, Rx(request, true));
    CountsExtend([], o);
    assert [] + [o] == [o];
  }

  /** Such runs exist, whatever the cipher and the generator: an IV request and the
      same LOCK frame twice. */
  lemma StaleCommandExists(env: Env, request: seq<byte>)
    requires IsRequestBytes(request) && request[7] != 0x00
    ensures exists frame ::
              var st := Run(env, [Rx(request, true)] + [Rx(frame, true)]).0;
              var o := Observe(env, st, Rx(frame, true));
              !Accepted(o) && CommandAfter(st.phase, o).kind == Lock
  {
    var asked := [Rx(request, true)];
    var (st, tr) := Run(env, asked);
    FirstRequest(env, request);
    var frame := EncryptFrame(env, st.key, st.slot, tr[0].iv, FRAME_LOCK);
    NoStrandedCommand(env, asked, 0, FRAME_LOCK);
    RunExtends(env, asked, Rx(frame, true));
    RepeatedActionShown(env, asked, 0, frame);
  }

  // ----- Provenance ----------------------------------------------------------

  lemma AttemptIssued(st: State, tr: Trace, o: Observation) returns (i: nat)
    requires LiveFits(st, tr) && Plausible(st, o) && o.Attempt?
    ensures EpochStart(tr) <= i < |tr| && IssuedAt(tr[i], o.gen, o.iv, o.slot)
  {
    var g :| Holds(st.phase, g) && g.id == o.gen && g.iv == o.iv;
    assert IssuedHere(tr, g.id, g.iv, st.slot);
    i :| EpochStart(tr) <= i < |tr| && IssuedAt(tr[i], g.id, g.iv, st.slot);
  }

  lemma SameEpochFrom(tr: Trace, i: nat, j: nat)
    requires j < |tr| && EpochStart(tr[..j]) <= i < j && !Hard(tr[j])
    ensures SameEpoch(tr, i, j)
  {
    EpochMeaning(tr[..j]);
    forall k | i < k < j
      ensures !Hard(tr[k])
    {
      assert tr[..j][k] == tr[k];
    }
  }

  /** The position that generated the IV of a frame that was read. */
  lemma IssueOf(env: Env, events: seq<Event>, j: nat) returns (i: nat)
    requires j < |events| && Run(env, events).1[j].Attempt?
    ensures var tr := Run(env, events).1;
            EpochStart(tr[..j]) <= i < j && IssuedAt(tr[i], tr[j].gen, tr[j].iv, tr[j].slot)
  {
    RunPrefixInv(env, events, j);
    i := AttemptIssued(Run(env, events[..j]).0, Run(env, events).1[..j], Run(env, events).1[j]);
  }

  /** Every frame that is read was decrypted under an IV this session generated,
      in the current epoch, for exactly the slot the frame names; the IV belongs
      to the latest generation or to its immediate predecessor. */
  lemma Provenance(env: Env, events: seq<Event>, j: nat)
    requires j < |events| && Run(env, events).1[j].Attempt?
    ensures var tr := Run(env, events).1;
            var o := tr[j];
            && events[j].Rx? && events[j].cryptoOk
            && 5 <= |events[j].frame| <= 36 && events[j].frame[0] == 0x57
            && events[j].frame[1] == o.slot && events[j].frame[2] == o.iv[0] && events[j].frame[3] == o.iv[1]
            && o.ciphertext == events[j].frame[4..]
            && o.plaintext == Xcrypt(env.keystream, o.key, o.iv, o.ciphertext) && o.command == Decode(o.plaintext)
            && Issued(tr[..j]) <= o.gen + 2
    ensures var tr := Run(env, events).1;
            exists i :: 0 <= i < j && IssuedAt(tr[i], tr[j].gen, tr[j].iv, tr[j].slot) && SameEpoch(tr, i, j)
  {
    var tr := Run(env, events).1;
    RunPrefix(env, events, j);
    AttemptCases(env, events, j);
    AttemptContents(env, Run(env, events[..j]).0, events[j]);
    var i := IssueOf(env, events, j);
    SameEpochFrom(tr, i, j);
  }

  /** No generation outlives a reset: a frame read after it was decrypted under an IV
      generated after it. */
  lemma NoGenerationOutlivesReset(env: Env, events: seq<Event>, r: nat, j: nat)
    requires r < j < |events| && Run(env, events).1[r].Cleared? && Run(env, events).1[j].Attempt?
    ensures var tr := Run(env, events).1;
            exists i :: r < i < j && IssuedAt(tr[i], tr[j].gen, tr[j].iv, tr[j].slot)
  {
    var tr := Run(env, events).1;
    Provenance(env, events, j);
    var i :| 0 <= i < j && IssuedAt(tr[i], tr[j].gen, tr[j].iv, tr[j].slot) && SameEpoch(tr, i, j);
    assert Hard(tr[r]);
  }

  /** A generation has one IV. */
  lemma OneIv(env: Env, events: seq<Event>, i: nat, j: nat)
    requires i < |events| && j < |events|
    requires var tr := Run(env, events).1; tr[i].Attempt? && tr[j].Attempt? && tr[i].gen == tr[j].gen
    ensures var tr := Run(env, events).1; tr[i].iv == tr[j].iv
  {
    var (st, tr) := Run(env, events);
    var a := IssueOf(env, events, i);
    var b := IssueOf(env, events, j);
    RunInv(env, events);
    NewIvUnique(st, tr, a, b);
  }

  // ----- Replays -------------------------------------------------------------

  lemma {:induction false} BetweenAgrees(a: Trace, b: Trace, i: nat, n: nat, g: nat)
    requires i <= n <= |a| <= |b| && a == b[..|a|]
    ensures ActionsBetween(a, i, n, g) == ActionsBetween(b, i, n, g)
    decreases n - i
  {
    if i < n {
      BetweenAgrees(a, b, i, n - 1, g);
    }
  }

  lemma {:induction false} BetweenInPrefix(tr: Trace, i: nat, j: nat, g: nat)
    requires i <= j <= |tr|
    ensures forall n :: i <= n <= j ==> ActionsBetween(tr[..j], i, n, g) == ActionsBetween(tr, i, n, g)
  {
    forall n | i <= n <= j
      ensures ActionsBetween(tr[..j], i, n, g) == ActionsBetween(tr, i, n, g)
    {
      BetweenAgrees(tr[..j], tr, i, n, g);
    }
  }

  /** An action is never repeated within the replay window of its generation: of two
      accepted LOCK or UNLOCK frames of one generation with at most seven others of
      it accepted between them, the ciphertexts differ, and under one key the
      plaintexts differ too. */
  lemma NoReplayInWindow(env: Env, events: seq<Event>, i: nat, j: nat)
    requires i < j < |events|
    requires var tr := Run(env, events).1;
             && Accepted(tr[i]) && (tr[i].command.kind == Lock || tr[i].command.kind == Unlock)
             && Accepted(tr[j]) && (tr[j].command.kind == Lock || tr[j].command.kind == Unlock)
             && tr[i].gen == tr[j].gen && ActionsBetween(tr, i + 1, j, tr[j].gen) <= 7
    ensures var tr := Run(env, events).1;
            && tr[i].ciphertext != tr[j].ciphertext
            && (tr[i].key == tr[j].key ==> tr[i].plaintext != tr[j].plaintext)
  {
    var tr := Run(env, events).1;
    var g := tr[j].gen;
    assert !InWindow(tr[..j], g, tr[j].ciphertext) by {
      RunPrefixInv(env, events, j);
      WindowIsRecent(tr[..j], g, tr[j].ciphertext);
    }
    BetweenInPrefix(tr, i + 1, j, g);
    assert IsRecentAction(tr[..j], i, g);
    Provenance(env, events, i);
    Provenance(env, events, j);
    OneIv(env, events, i, j);
    XcryptInjective(env.keystream, tr[j].key, tr[j].iv, tr[i].ciphertext, tr[j].ciphertext);
  }

  // ----- IV negotiation ------------------------------------------------------

  /** At most five fills of four words, however broken the generator. */
  lemma AdvertisedWords(env: Env, st: State, slot: byte)
    ensures Advertise(env, st, slot).words <= 20
  {
    var avoid := if slot != st.slot || !(st.phase.Steady? || st.phase.Overlap?) then None
                 else Some(st.phase.active.iv);
    PickIvMeaning(Fills(env.words, st.drawn), avoid, 0);
  }

  /** An IV request is answered with the pending IV. When one is pending already
      and the slot is unchanged, the request is a retry: the same IV again, no
      random word drawn, and nothing of the session changed but the reply state. */
  lemma RequestsAreIdempotent(env: Env, events: seq<Event>, frame: seq<byte>, ok: bool)
    requires IsRequestBytes(frame)
    ensures var st := Run(env, events).0;
            var (after, tr) := Run(env, events + [Rx(frame, ok)]);
            var o := tr[|events|];
            && o.Advertised? && o.slot == frame[7] && HasPending(after.phase)
            && after.phase.pending.id == o.gen && after.phase.pending.iv == o.iv
            && o.words <= 20
            && (HasPending(st.phase) && frame[7] == st.slot ==>
                  o.iv == st.phase.pending.iv && o.words == 0 && after == st.(replyIv := None))
            && (!HasPending(st.phase) || frame[7] != st.slot ==> o.gen == Issued(tr[..|events|]))
  {
    var st := Run(env, events).0;
    RequestBytesExact(frame);
    RunExtends(env, events, Rx(frame, ok));
    ObservePlausible(env, st, Rx(frame, ok));
    AdvertisedWords(env, st, frame[7]);
    assert Run(env, events + [Rx(frame, ok)]).1[..|events|] == Run(env, events).1;
    RunInv(env, events);
  }

  lemma CandidateBytes(words: nat -> Word, at: nat, n: nat)
    requires n < 16
    ensures Candidate(words, at)[n] == words(at + n / 4)[n % 4]
  {
    assert n / 4 == 0 || n / 4 == 1 || n / 4 == 2 || n / 4 == 3;
  }

  /** Byte `n` of the k-th fill from random word `at`. */
  function FillByte(words: nat -> Word, at: nat, k: nat, n: nat): byte
    requires n < 16
  {
    words(at + 4 * k + n / 4)[n % 4]
  }

  predicate IsFill(iv: Iv, words: nat -> Word, at: nat, k: nat) {
    forall n :: 0 <= n < 16 ==> iv[n] == FillByte(words, at, k, n)
  }

  predicate IsFlippedFill(iv: Iv, words: nat -> Word, at: nat, k: nat) {
    && (forall n :: 0 <= n < 16 && n != 1 ==> iv[n] == FillByte(words, at, k, n))
    && iv[1] == FillByte(words, at, k, 1) ^ 0x01
  }

  lemma FillIsFill(words: nat -> Word, at: nat, k: nat)
    ensures IsFill(Fills(words, at)(k), words, at, k)
  {
    forall n | 0 <= n < 16
      ensures Fills(words, at)(k)[n] == FillByte(words, at, k, n)
    {
      CandidateBytes(words, at + 4 * k, n);
    }
  }

  lemma FlippedIsFlipped(iv: Iv, words: nat -> Word, at: nat, k: nat)
    requires IsFill(iv, words, at, k)
    ensures IsFlippedFill(FlipSeq(iv), words, at, k)
  {
    assert iv[1] == FillByte(words, at, k, 1);
  }

  /** The IV a new one must not share its sequence bytes with: the active one's, if the
      slot is unchanged. */
  function SupersededIv(st: State, slot: byte): Option<Iv> {
    if slot == st.slot && (st.phase.Steady? || st.phase.Overlap?) then Some(st.phase.active.iv) else None
  }

  predicate Clashes(words: nat -> Word, at: nat, k: nat, avoid: Option<Iv>) {
    avoid.Some? && FillByte(words, at, k, 0) == avoid.value[0] && FillByte(words, at, k, 1) == avoid.value[1]
  }

  lemma FillClashes(words: nat -> Word, at: nat, k: nat, avoid: Option<Iv>)
    ensures Collides(Fills(words, at)(k), avoid) <==> Clashes(words, at, k, avoid)
  {
    FillIsFill(words, at, k);
    assert Fills(words, at)(k)[0] == FillByte(words, at, k, 0) && Fills(words, at)(k)[1] == FillByte(words, at, k, 1);
  }

  lemma PickedBytes(words: nat -> Word, at: nat, avoid: Option<Iv>) returns (k: nat)
    ensures var (iv, fills) := PickIv(Fills(words, at), avoid, 0);
            && k <= 4 && fills == k + 1
            && (forall j: nat :: j < k ==> Clashes(words, at, j, avoid))
            && (if Clashes(words, at, k, avoid) then k == 4 && IsFlippedFill(iv, words, at, k)
                else IsFill(iv, words, at, k))
  {
    var fill := Fills(words, at);
    PickIvMeaning(fill, avoid, 0);
    var (iv, fills) := PickIv(fill, avoid, 0);
    k := fills - 1;
    forall j: nat | j <= k
      ensures Collides(fill(j), avoid) <==> Clashes(words, at, j, avoid)
    {
      FillClashes(words, at, j, avoid);
    }
    FillIsFill(words, at, k);
    FlippedIsFlipped(fill(k), words, at, k);
  }

  /** A new IV is four successive words of the random stream, in order: the first fill
      that does not share both its first bytes with the active IV or, when five do,
      the fifth with the low bit of its second byte flipped. The words drawn are those
      fills and no others. */
  lemma AdvertisedBytes(env: Env, st: State, slot: byte) returns (k: nat)
    requires NewIv(Advertise(env, st, slot))
    ensures var o := Advertise(env, st, slot);
            var avoid := SupersededIv(st, slot);
            && k <= 4 && o.words == 4 * (k + 1)
            && (forall j: nat :: j < k ==> Clashes(env.words, st.drawn, j, avoid))
            && (if Clashes(env.words, st.drawn, k, avoid) then k == 4 && IsFlippedFill(o.iv, env.words, st.drawn, k)
                else IsFill(o.iv, env.words, st.drawn, k))
  {
    k := PickedBytes(env.words, st.drawn, SupersededIv(st, slot));
  }

  lemma SeqBytes(a: Iv, b: Iv)
    ensures SameSeq(a, b) <==> a[..2] == b[..2]
  {
    assert a[..2] == [a[0], a[1]] && b[..2] == [b[0], b[1]];
  }

  /** Of two consecutive generations of one epoch the sequence bytes differ, for
      every random stream; so a header never names two held generations. */
  lemma SequencesDistinct(env: Env, events: seq<Event>, i: nat, j: nat)
    requires i < j < |events|
    requires var tr := Run(env, events).1;
             NewIv(tr[i]) && NewIv(tr[j]) && tr[j].gen == tr[i].gen + 1 && SameEpoch(tr, i, j)
    ensures var tr := Run(env, events).1; tr[i].iv[..2] != tr[j].iv[..2]
  {
    var tr := Run(env, events).1;
    assert !SameSeq(tr[i].iv, tr[j].iv) by {
      RunInv(env, events);
    }
    SeqBytes(tr[i].iv, tr[j].iv);
  }

  lemma TwoHeld(st: State, s: Summary, g: Generation, h: Generation)
    requires PhaseFits(st, s) && Holds(st.phase, g) && Holds(st.phase, h) && g != h
    ensures s.inEpoch >= 2 && s.issued >= 2
    ensures (g.id == s.issued - 2 && h.id == s.issued - 1) || (h.id == s.issued - 2 && g.id == s.issued - 1)
  {
  }

  lemma OlderDiffers(st: State, tr: Trace, older: Generation, newer: Generation)
    requires Inv(st, tr) && Superseded(tr) && Holds(st.phase, older) && Holds(st.phase, newer)
    requires older.id + 2 == Issued(tr) && newer.id + 1 == Issued(tr)
    ensures !SameSeq(older.iv, newer.iv)
  {
    assert IssuedHere(tr, older.id, older.iv, st.slot);
    var i :| EpochStart(tr) <= i < |tr| && IssuedAt(tr[i], older.id, older.iv, st.slot);
    PredecessorIv(st, tr, i);
  }

  /** Which generations are held: the latest, and at most its predecessor. */
  predicate HoldsNewest(phase: Phase, issued: nat) {
    match phase
    case Idle => true
    case First(p) => p.id == issued - 1
    case Steady(a) => a.id == issued - 1
    case Handoff(a, p, _) => a.id == issued - 2 && p.id == issued - 1
    case Overlap(a, r) => a.id == issued - 1 && r.id == issued - 2
  }

  lemma HeldIsNewest(env: Env, events: seq<Event>)
    ensures var (st, tr) := Run(env, events);
            HoldsNewest(st.phase, Issued(tr)) && LiveFits(st, tr)
  {
    var (st, tr) := Run(env, events);
    RunInv(env, events);
    SummaryReads(tr);
  }

  lemma HeldDiffer(env: Env, events: seq<Event>, g: Generation, h: Generation)
    requires var phase := Run(env, events).0.phase; Holds(phase, g) && Holds(phase, h) && g != h
    ensures !SameSeq(g.iv, h.iv)
  {
    var (st, tr) := Run(env, events);
    RunInv(env, events);
    TwoHeld(st, Summarize(tr), g, h);
    if g.id < h.id {
      OlderDiffers(st, tr, g, h);
    } else {
      OlderDiffers(st, tr, h, g);
    }
  }

  /** Any two generations held at once have different sequence bytes. */
  lemma HeldDistinct(env: Env, events: seq<Event>, g: Generation, h: Generation)
    requires var phase := Run(env, events).0.phase; Holds(phase, g) && Holds(phase, h) && g != h
    ensures g.iv[..2] != h.iv[..2]
  {
    HeldDiffer(env, events, g, h);
    SeqBytes(g.iv, h.iv);
  }

  // ----- Replies -------------------------------------------------------------

  lemma {:induction false} ReplyIvFits(env: Env, events: seq<Event>)
    ensures var (st, tr) := Run(env, events);
            var c := BeingAnswered(tr);
            && (c.Some? <==> st.replyIv.Some?)
            && (c.Some? ==> c.value.Attempt? && st.replyIv.value == c.value.iv)
            && (tr != [] && Accepted(Last(tr)) ==> c == Some(Last(tr)) && st.key == Last(tr).key)
    decreases |events|
  {
    if events != [] {
      var before := events[..|events| - 1];
      ReplyIvFits(env, before);
      var (st, tr) := Run(env, before);
      var o := Observe(env, st, events[|events| - 1]);
      ObservePlausible(env, st, events[|events| - 1]);
      assert Init(tr + [o]) == tr && Last(tr + [o]) == o;
    }
  }

  /** A reply exists exactly while an accepted command is being answered, for its
      sequence bytes; it decrypts under the IV that decrypted the command, whether or
      not that generation is still held, and under the session's present key. Unless
      a new key came since, that is the command's own key. */
  lemma ReplyRoundTrip(env: Env, events: seq<Event>, keyId: byte, seqA: byte, seqB: byte, payload: seq<byte>)
    ensures var (st, tr) := Run(env, events);
            var c := BeingAnswered(tr);
            var reply := Reply(env, st, keyId, seqA, seqB, payload, true);
            && (reply.Some? <==>
                  c.Some? && |payload| <= 32 && seqA == c.value.iv[0] && seqB == c.value.iv[1])
            && (reply.Some? ==>
                  && |reply.value| == 4 + |payload|
                  && reply.value[..4] == [0x01, keyId, seqA, seqB]
                  && Xcrypt(env.keystream, st.key, c.value.iv, reply.value[4..]) == payload)
            && (tr != [] && Accepted(Last(tr)) ==> c == Some(Last(tr)) && st.key == Last(tr).key)
  {
    var (st, tr) := Run(env, events);
    ReplyIvFits(env, events);
    if st.replyIv.Some? {
      var iv := st.replyIv.value;
      XcryptInvolution(env.keystream, st.key, iv, payload);
      var packet := [0x01, keyId, seqA, seqB] + Xcrypt(env.keystream, st.key, iv, payload);
      assert packet[4..] == Xcrypt(env.keystream, st.key, iv, payload);
    }
  }

  /** Setting a new key neither makes nor ends a reply; it moves it to the new key. */
  lemma ReplyAfterNewKey(env: Env, events: seq<Event>, key: Key,
                         keyId: byte, seqA: byte, seqB: byte, payload: seq<byte>)
    ensures var st := Run(env, events).0;
            var rekeyed := Run(env, events + [SetKey(key)]).0;
            var reply := Reply(env, rekeyed, keyId, seqA, seqB, payload, true);
            && (reply.Some? <==> Reply(env, st, keyId, seqA, seqB, payload, true).Some?)
            && (reply.Some? ==> Xcrypt(env.keystream, key, st.replyIv.value, reply.value[4..]) == payload)
  {
    var (st, tr) := Run(env, events);
    RunExtends(env, events, SetKey(key));
    var ext := tr + [Rekeyed(key)];
    assert Init(ext) == tr && Last(ext) == Rekeyed(key);
    ReplyIvFits(env, events);
    ReplyRoundTrip(env, events + [SetKey(key)], keyId, seqA, seqB, payload);
  }
}
