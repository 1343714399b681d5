/** The invariant tying the session's state to its observation trace, and its
    preservation by every event. */
module SessionInvariant {
  import opened Bytes
  import opened LockProtocol
  import opened SessionSpec
  import opened SessionTrace

  /** The generations a phase holds. */
  predicate Holds(phase: Phase, g: Generation) {
    match phase
    case Idle => false
    case First(p) => g == p
    case Steady(a) => g == a
    case Handoff(a, p, _) => g == a || g == p
    case Overlap(a, r) => g == a || g == r
  }

  predicate HasPending(phase: Phase) {
    phase.First? || phase.Handoff?
  }

  /** Everything the update of a state relies on about the observation it applies. */
  ghost predicate Plausible(st: State, o: Observation) {
    match o
    case Advertised(id, iv, slot, isNew, rebased, words) =>
      && (rebased <==> slot != st.slot)
      && (if isNew then
            && id == st.nextId
            && (rebased || !HasPending(st.phase))
            && (!rebased && !st.phase.Idle? ==> !SameSeq(iv, st.phase.active.iv))
          else
            !rebased && HasPending(st.phase) && id == st.phase.pending.id && iv == st.phase.pending.iv && words == 0)
    case Attempt(id, iv, slot, key, ciphertext, plaintext, command, accepted) =>
      && slot == st.slot && key == st.key
      && 1 <= |ciphertext| <= MAX_PAYLOAD
      && exists g :: Holds(st.phase, g) && g.id == id && g.iv == iv &&
                accepted == Admits(st.phase, g, command, ciphertext)
    case Unreadable(id) => exists g :: Holds(st.phase, g) && g.id == id
    case Cleared(slot) => slot == st.slot || slot == 0x00
    case _ => true
  }

  lemma FlippedDiffers(iv: Iv)
    ensures !SameSeq(FlipSeq(iv), iv)
  {
    assert iv[1] ^ 0x01 != iv[1];
  }

  /** For every random stream, a constant one included, the chosen IV is the
      first candidate that does not collide or, after five collisions, the last
      one with a bit flipped; it never collides with the IV to avoid. */
  lemma {:induction false} PickIvMeaning(fill: nat -> Iv, avoid: Option<Iv>, k: nat)
    requires k <= IV_RETRIES
    ensures var (iv, fills) := PickIv(fill, avoid, k);
            && !Collides(iv, avoid)
            && k < fills <= IV_RETRIES + 1
            && (forall i: nat :: k <= i < fills - 1 ==> Collides(fill(i), avoid))
            && (Collides(fill(fills - 1), avoid) ==> fills == IV_RETRIES + 1 && iv == FlipSeq(fill(fills - 1)))
            && (!Collides(fill(fills - 1), avoid) ==> iv == fill(fills - 1))
    decreases IV_RETRIES - k
  {
    if Collides(fill(k), avoid) {
      if k == IV_RETRIES {
        FlippedDiffers(fill(k));
      } else {
        PickIvMeaning(fill, avoid, k + 1);
      }
    }
  }

  lemma MatchHolds(phase: Phase, seqA: byte, seqB: byte)
    ensures var m := Match(phase, seqA, seqB);
            m.Some? ==> Holds(phase, m.value) && Names(m.value, seqA, seqB)
  {
  }

  lemma AdvertisePlausible(env: Env, st: State, slot: byte)
    ensures Plausible(st, Advertise(env, st, slot))
  {
    var avoid := if slot != st.slot || !(st.phase.Steady? || st.phase.Overlap?) then None
                 else Some(st.phase.active.iv);
    PickIvMeaning(Fills(env.words, st.drawn), avoid, 0);
  }

  lemma EncryptedPlausible(env: Env, st: State, frame: seq<byte>, cryptoOk: bool)
    ensures Plausible(st, ObserveEncrypted(env, st, frame, cryptoOk))
  {
    if |frame| > HEADER_LEN {
      MatchHolds(st.phase, frame[2], frame[3]);
    }
  }

  lemma ObservePlausible(env: Env, st: State, ev: Event)
    ensures Plausible(st, Observe(env, st, ev))
  {
    if ev.Rx? {
      if IsIvRequest(ev.frame) {
        AdvertisePlausible(env, st, ev.frame[7]);
      } else {
        EncryptedPlausible(env, st, ev.frame, ev.cryptoOk);
      }
    }
  }

  // ----- Counters and identities --------------------------------------------

  /** A generated IV gets the next id; every other id mentioned was given before. */
  predicate IdFits(o: Observation, issued: nat) {
    && (NewIv(o) ==> o.gen == issued)
    && (Matched(o) || (o.Advertised? && !o.isNew) ==> o.gen < issued)
  }

  /** Generation ids count the generated IVs. */
  ghost predicate IdsFit(st: State, tr: Trace) {
    && st.nextId == Issued(tr)
    && (forall i :: 0 <= i < |tr| ==> IdFits(tr[i], Issued(tr[..i])))
  }

  /** The trace, condensed to what the phase depends on. */
  datatype Summary = Summary(
    issued: nat,
    inEpoch: nat,
    open: bool,        // the hand-off to the latest generation is still open
    polls: nat,        // polls under its predecessor
    latestUsed: bool)  // a frame was read under the latest generation

  ghost function SummaryAt(tr: Trace, n: nat, e: nat, from: nat): Summary
    requires e <= n
  {
    Summary(n, e,
            e >= 2 && HandoffOpen(tr, from, n - 2, n - 1),
            if e >= 2 then Polls(tr, from, n - 2) else 0,
            n >= 1 && !Unused(tr, from, n - 1))
  }

  ghost function Summarize(tr: Trace): Summary {
    SummaryAt(tr, Issued(tr), IssuedInEpoch(tr), WindowStart(tr))
  }

  ghost function Next(s: Summary, o: Observation): Summary {
    if NewIv(o) then
      var e := if o.rebased then 1 else s.inEpoch + 1;
      Summary(s.issued + 1, e, e >= 2, 0, false)
    else if o.Cleared? then
      Summary(s.issued, 0, false, 0, s.latestUsed)
    else
      var n := s.issued;
      var polled := s.inEpoch >= 2 && n >= 2 && PollBy(o, n - 2);
      var latest := n >= 1 && AttemptBy(o, n - 1);
      Summary(n, s.inEpoch,
              && s.open && !o.Boundary? && !(n >= 2 && NonPollBy(o, n - 2)) && (polled ==> s.polls == 0)
              && !(latest && o.command.kind != StatePoll) && (Matched(o) ==> !s.latestUsed),
              s.polls + if polled then 1 else 0,
              s.latestUsed || latest)
  }

  /** Each phase says how many generations the epoch has seen, which of them it
      holds, and how far the hand-off to the latest one has come. */
  ghost predicate PhaseFits(st: State, s: Summary) {
    var n := s.issued;
    var e := s.inEpoch;
    && (s.open ==> e >= 2)
    && match st.phase
    case Idle => e == 0
    case First(p) => e == 1 <= n && p.id == n - 1 && p.log == [] && !s.latestUsed
    case Steady(a) =>
      1 <= e <= n && a.id == n - 1 && s.latestUsed && !(st.slot == VISION_KEY_SLOT && s.open)
    case Handoff(a, p, allowance) =>
      && 2 <= e <= n && a.id == n - 2 && p.id == n - 1 && p.log == [] && !s.latestUsed
      && (!allowance.Closed? <==> st.slot == VISION_KEY_SLOT && s.open)
      && (allowance.Untouched? ==> s.polls == 0)
      && (allowance.OnePollSeen? ==> s.polls == 1)
    case Overlap(a, r) =>
      2 <= e <= n && a.id == n - 1 && r.id == n - 2 && s.latestUsed && st.slot == VISION_KEY_SLOT && s.open
  }

  lemma PhaseStep(st: State, s: Summary, o: Observation)
    requires PhaseFits(st, s) && Plausible(st, o) && st.nextId == s.issued
    ensures PhaseFits(Apply(st, o), Next(s, o))
  {
  }

  lemma IdsStep(st: State, tr: Trace, o: Observation)
    requires IdsFit(st, tr) && PhaseFits(st, Summarize(tr)) && Plausible(st, o)
    ensures IdsFit(Apply(st, o), tr + [o])
  {
    CountsExtend(tr, o);
    var ext := tr + [o];
    forall i | 0 <= i < |ext|
      ensures IdFits(ext[i], Issued(ext[..i]))
    {
      if i < |tr| {
        assert ext[..i] == tr[..i];
      } else {
        assert ext[..i] == tr;
      }
    }
  }

  lemma IssuedMonotone(tr: Trace, i: nat)
    requires i <= |tr|
    ensures Issued(tr[..i]) <= Issued(tr)
    ensures i <= WindowStart(tr) - 1 ==> Issued(tr[..i]) < Issued(tr)
    decreases |tr|
  {
    if i == |tr| {
      assert tr[..i] == tr;
    } else {
      assert Init(tr)[..i] == tr[..i];
      IssuedMonotone(Init(tr), i);
    }
  }

  lemma {:induction false} WindowStartMeaning(tr: Trace)
    ensures 0 < Issued(tr) ==> 0 < WindowStart(tr) && NewIv(tr[WindowStart(tr) - 1])
    ensures forall i :: WindowStart(tr) <= i < |tr| ==> !NewIv(tr[i])
    decreases |tr|
  {
    if tr != [] && !NewIv(Last(tr)) {
      WindowStartMeaning(Init(tr));
      forall i | WindowStart(tr) <= i < |tr|
        ensures !NewIv(tr[i])
      {
        if i < |tr| - 1 {
          assert Init(tr)[i] == tr[i];
        }
      }
    }
  }

  lemma NoEarlyAttempts(st: State, tr: Trace)
    requires IdsFit(st, tr)
    ensures !Attempted(tr, Issued(tr))
  {
    forall i | 0 <= i < |tr| && Matched(tr[i])
      ensures tr[i].gen < Issued(tr)
    {
      assert IdFits(tr[i], Issued(tr[..i]));
      IssuedMonotone(tr, i);
    }
  }

  lemma FreshWindow(tr: Trace, n: nat, e: nat)
    requires 1 <= e <= n
    ensures SummaryAt(tr, n, e, |tr|) == Summary(n, e, e >= 2, 0, false)
  {
  }

  lemma HandoffStep(tr: Trace, o: Observation, s: Summary, from: nat)
    requires 2 <= s.inEpoch <= s.issued && from <= |tr| && !NewIv(o) && !o.Cleared?
    requires s.open <==> HandoffOpen(tr, from, s.issued - 2, s.issued - 1)
    requires s.polls == Polls(tr, from, s.issued - 2)
    requires s.latestUsed <==> !Unused(tr, from, s.issued - 1)
    ensures Next(s, o).open <==> HandoffOpen(tr + [o], from, s.issued - 2, s.issued - 1)
    ensures Next(s, o).polls == Polls(tr + [o], from, s.issued - 2)
    ensures Next(s, o).latestUsed <==> !Unused(tr + [o], from, s.issued - 1)
  {
    HandoffOpenExtends(tr, o, from, s.issued - 2, s.issued - 1);
  }

  lemma SummaryAtStep(tr: Trace, o: Observation, n: nat, e: nat, from: nat)
    requires e <= n && from <= |tr| && !NewIv(o) && !o.Cleared?
    ensures SummaryAt(tr + [o], n, e, from) == Next(SummaryAt(tr, n, e, from), o)
  {
    if e >= 2 {
      HandoffStep(tr, o, SummaryAt(tr, n, e, from), from);
    } else if n >= 1 {
      HandoffOpenExtends(tr, o, from, 0, n - 1);
    }
  }

  lemma SummaryAtClear(tr: Trace, o: Observation, n: nat, e: nat, from: nat)
    requires e <= n && from <= |tr| && o.Cleared?
    ensures SummaryAt(tr + [o], n, 0, from) == Next(SummaryAt(tr, n, e, from), o)
  {
    if n >= 1 {
      HandoffOpenExtends(tr, o, from, 0, n - 1);
    }
  }

  /** The summary can be kept up to date one observation at a time. */
  lemma SummaryStep(st: State, tr: Trace, o: Observation)
    requires Plausible(st, o)
    ensures Summarize(tr + [o]) == Next(Summarize(tr), o)
  {
    CountsExtend(tr, o);
    if NewIv(o) {
      FreshWindow(tr + [o], Issued(tr) + 1, IssuedInEpoch(tr + [o]));
    } else if o.Cleared? {
      SummaryAtClear(tr, o, Issued(tr), IssuedInEpoch(tr), WindowStart(tr));
    } else {
      SummaryAtStep(tr, o, Issued(tr), IssuedInEpoch(tr), WindowStart(tr));
    }
  }

  // ----- Live generations ----------------------------------------------------

  predicate IssuedAt(o: Observation, id: nat, iv: Iv, slot: byte) {
    NewIv(o) && o.gen == id && o.iv == iv && o.slot == slot
  }

  /** Generation `id` was given `iv` for `slot` in the current epoch. */
  ghost predicate IssuedHere(tr: Trace, id: nat, iv: Iv, slot: byte) {
    exists i :: EpochStart(tr) <= i < |tr| && IssuedAt(tr[i], id, iv, slot)
  }

  /** Every held generation was issued in this epoch for this slot, and its log
      lists exactly the actions accepted under it. */
  ghost predicate LiveFits(st: State, tr: Trace) {
    forall g :: Holds(st.phase, g) ==>
                  g.log == Actions(tr, g.id) && IssuedHere(tr, g.id, g.iv, st.slot)
  }

  lemma NoActionsBefore(st: State, tr: Trace, id: nat)
    requires !Attempted(tr, id)
    ensures Actions(tr, id) == []
    decreases |tr|
  {
    if tr != [] {
      assert !AttemptBy(tr[|tr| - 1], id);
      forall i | 0 <= i < |tr| - 1
        ensures !AttemptBy(Init(tr)[i], id)
      {
        assert Init(tr)[i] == tr[i];
      }
      NoActionsBefore(st, Init(tr), id);
    }
  }

  lemma IssuedHereExtends(tr: Trace, o: Observation, id: nat, iv: Iv, slot: byte)
    requires IssuedHere(tr, id, iv, slot) && !Hard(o)
    ensures IssuedHere(tr + [o], id, iv, slot)
  {
    CountsExtend(tr, o);
    var i :| EpochStart(tr) <= i < |tr| && IssuedAt(tr[i], id, iv, slot);
    assert (tr + [o])[i] == tr[i];
  }

  /** A generation held after a step is new, or was held before with the log it
      had or that log and the ciphertext just recorded. */
  lemma HeldAfter(st: State, s: Summary, o: Observation, g: Generation)
    requires PhaseFits(st, s) && Plausible(st, o) && st.nextId == s.issued
    requires Holds(Apply(st, o).phase, g)
    ensures if NewIv(o) && g.id == s.issued then g == Generation(o.gen, o.iv, [])
            else
              && !Hard(o)
              && exists h :: Holds(st.phase, h) && h.id == g.id && h.iv == g.iv &&
                        g.log == (if ActionBy(o, g.id) then h.log + [o.ciphertext] else h.log)
  {
    var p := st.phase;
    if NewIv(o) && g.id == s.issued {
    } else if p.First? {
      assert Holds(p, p.pending);
    } else if p.Steady? {
      assert Holds(p, p.active);
    } else if p.Handoff? {
      assert Holds(p, p.active) && Holds(p, p.pending);
    } else if p.Overlap? {
      assert Holds(p, p.active) && Holds(p, p.retired);
    }
  }

  lemma LiveStepOne(st: State, tr: Trace, o: Observation, g: Generation)
    requires IdsFit(st, tr) && PhaseFits(st, Summarize(tr)) && LiveFits(st, tr) && Plausible(st, o)
    requires Holds(Apply(st, o).phase, g)
    ensures g.log == Actions(tr + [o], g.id) && IssuedHere(tr + [o], g.id, g.iv, Apply(st, o).slot)
  {
    HeldAfter(st, Summarize(tr), o, g);
    ActionsExtend(tr, o, g.id);
    CountsExtend(tr, o);
    if NewIv(o) && g.id == Issued(tr) {
      NoEarlyAttempts(st, tr);
      NoActionsBefore(st, tr, g.id);
      assert IssuedAt((tr + [o])[|tr|], g.id, g.iv, o.slot);
    } else {
      var h :| Holds(st.phase, h) && h.id == g.id && h.iv == g.iv;
      assert IssuedHere(tr, h.id, h.iv, st.slot);
      IssuedHereExtends(tr, o, h.id, h.iv, st.slot);
    }
  }

  lemma LiveStep(st: State, tr: Trace, o: Observation)
    requires IdsFit(st, tr) && PhaseFits(st, Summarize(tr)) && LiveFits(st, tr) && Plausible(st, o)
    ensures LiveFits(Apply(st, o), tr + [o])
  {
    forall g | Holds(Apply(st, o).phase, g)
      ensures g.log == Actions(tr + [o], g.id) && IssuedHere(tr + [o], g.id, g.iv, Apply(st, o).slot)
    {
      LiveStepOne(st, tr, o, g);
    }
  }

  // ----- Distinct sequence bytes ---------------------------------------------

  /** No session boundary separates two positions. */
  predicate SameEpoch(tr: Trace, i: nat, j: nat)
    requires j < |tr|
  {
    forall k :: i < k <= j ==> !Hard(tr[k])
  }

  /** Consecutive generations of one epoch never share their sequence bytes. */
  ghost predicate SeqsDistinct(tr: Trace) {
    forall i, j :: 0 <= i < j < |tr| && NewIv(tr[i]) && NewIv(tr[j]) && tr[j].gen == tr[i].gen + 1 &&
                   SameEpoch(tr, i, j)
                   ==> !SameSeq(tr[i].iv, tr[j].iv)
  }

  lemma NewIvUnique(st: State, tr: Trace, i: nat, j: nat)
    requires IdsFit(st, tr) && i < |tr| && j < |tr|
    requires NewIv(tr[i]) && NewIv(tr[j]) && tr[i].gen == tr[j].gen
    ensures i == j
  {
    var lo, hi := if i < j then i else j, if i < j then j else i;
    assert IdFits(tr[lo], Issued(tr[..lo])) && IdFits(tr[hi], Issued(tr[..hi]));
    if lo < hi {
      assert tr[..hi][..lo + 1] == tr[..lo + 1];
      assert Init(tr[..lo + 1]) == tr[..lo] && Last(tr[..lo + 1]) == tr[lo];
      IssuedMonotone(tr[..hi], lo + 1);
    }
  }

  lemma {:induction false} EpochMeaning(tr: Trace)
    ensures forall k :: EpochStart(tr) < k < |tr| ==> !Hard(tr[k])
    ensures forall i :: 0 <= i < |tr| && NewIv(tr[i]) && SameEpoch(tr, i, |tr| - 1) ==>
                          EpochStart(tr) <= i && IssuedInEpoch(tr) >= 1
    decreases |tr|
  {
    if tr != [] {
      var init := Init(tr);
      EpochMeaning(init);
      forall i | 0 <= i < |tr| && NewIv(tr[i]) && SameEpoch(tr, i, |tr| - 1)
        ensures EpochStart(tr) <= i && IssuedInEpoch(tr) >= 1
      {
        if i < |tr| - 1 {
          assert !Hard(tr[|tr| - 1]);
          assert NewIv(init[i]);
          assert forall k :: 0 <= k < |init| ==> init[k] == tr[k];
          assert SameEpoch(init, i, |init| - 1);
        }
      }
      forall k | EpochStart(tr) < k < |tr|
        ensures !Hard(tr[k])
      {
        if k < |tr| - 1 {
          assert init[k] == tr[k];
        }
      }
    }
  }

  lemma NewestDiffers(st: State, tr: Trace, o: Observation, i: nat)
    requires IdsFit(st, tr) && PhaseFits(st, Summarize(tr)) && LiveFits(st, tr) && Plausible(st, o)
    requires NewIv(o) && !Hard(o) && i < |tr| && NewIv(tr[i]) && o.gen == tr[i].gen + 1
    requires SameEpoch(tr, i, |tr| - 1)
    ensures !SameSeq(tr[i].iv, o.iv)
  {
    EpochMeaning(tr);
    var a := st.phase.active;
    assert Holds(st.phase, a);
    var k :| EpochStart(tr) <= k < |tr| && IssuedAt(tr[k], a.id, a.iv, st.slot);
    NewIvUnique(st, tr, i, k);
  }

  lemma SeqsStep(st: State, tr: Trace, o: Observation)
    requires IdsFit(st, tr) && PhaseFits(st, Summarize(tr)) && LiveFits(st, tr) && SeqsDistinct(tr)
    requires Plausible(st, o)
    ensures SeqsDistinct(tr + [o])
  {
    var ext := tr + [o];
    forall i, j | 0 <= i < j < |ext| && NewIv(ext[i]) && NewIv(ext[j]) && ext[j].gen == ext[i].gen + 1 &&
                  SameEpoch(ext, i, j)
      ensures !SameSeq(ext[i].iv, ext[j].iv)
    {
      assert forall k :: 0 <= k < |tr| ==> ext[k] == tr[k];
      if j < |tr| {
        assert SameEpoch(tr, i, j);
      } else {
        assert !Hard(ext[j]);
        assert SameEpoch(tr, i, |tr| - 1);
        NewestDiffers(st, tr, o, i);
      }
    }
  }

  // ----- The whole invariant -------------------------------------------------

  ghost predicate Inv(st: State, tr: Trace) {
    IdsFit(st, tr) && PhaseFits(st, Summarize(tr)) && LiveFits(st, tr) && SeqsDistinct(tr)
  }

  lemma InvStep(st: State, tr: Trace, o: Observation)
    requires Inv(st, tr) && Plausible(st, o)
    ensures Inv(Apply(st, o), tr + [o])
  {
    IdsStep(st, tr, o);
    SummaryStep(st, tr, o);
    PhaseStep(st, Summarize(tr), o);
    LiveStep(st, tr, o);
    SeqsStep(st, tr, o);
  }

  /** Every reachable state fits the trace that led to it. */
  lemma {:induction false} RunInv(env: Env, events: seq<Event>)
    ensures var (st, tr) := Run(env, events);
            Inv(st, tr)
    decreases |events|
  {
    if events != [] {
      var before := events[..|events| - 1];
      RunInv(env, before);
      var (st, tr) := Run(env, before);
      ObservePlausible(env, st, events[|events| - 1]);
      InvStep(st, tr, Observe(env, st, events[|events| - 1]));
    }
  }
}
