/**
 Vocabulary for whole runs of the session: what a reader of the observation
 trace alone, without the machine's phases or flags, can say about generations.
 */
module SessionTrace {
  import opened Bytes
  import opened LockProtocol
  import opened SessionSpec

  type Trace = seq<Observation>

  function Init(tr: Trace): Trace
    requires tr != []
  {
    tr[..|tr| - 1]
  }

  function Last(tr: Trace): Observation
    requires tr != []
  {
    tr[|tr| - 1]
  }

  predicate NewIv(o: Observation) {
    o.Advertised? && o.isNew
  }

  /** A reset of the session or a change of key slot. */
  predicate Hard(o: Observation) {
    o.Cleared? || (o.Advertised? && o.rebased)
  }

  /** A frame with the right magic, slot and sequence bytes. */
  predicate Matched(o: Observation) {
    o.Unreadable? || o.Attempt?
  }

  predicate AttemptBy(o: Observation, g: nat) {
    o.Attempt? && o.gen == g
  }

  predicate PollBy(o: Observation, g: nat) {
    AttemptBy(o, g) && o.command.kind == StatePoll
  }

  predicate NonPollBy(o: Observation, g: nat) {
    AttemptBy(o, g) && o.command.kind != StatePoll
  }

  predicate Accepted(o: Observation) {
    o.Attempt? && o.accepted
  }

  /** An accepted frame that is not a state poll. */
  predicate SideEffect(o: Observation) {
    Accepted(o) && o.command.kind != StatePoll
  }

  /** Number of IVs generated so far; the latest generation is one less. */
  function Issued(tr: Trace): nat {
    if tr == [] then 0 else Issued(Init(tr)) + if NewIv(Last(tr)) then 1 else 0
  }

  /** Number of IVs generated since the last hard boundary. */
  function IssuedInEpoch(tr: Trace): (count: nat)
    ensures count <= Issued(tr)
  {
    if tr == [] then 0
    else
      (if Hard(Last(tr)) then 0 else IssuedInEpoch(Init(tr))) + if NewIv(Last(tr)) then 1 else 0
  }

  /** Position of the first observation of the current epoch. A slot change
      belongs to the epoch it opens. */
  function EpochStart(tr: Trace): (from: nat)
    ensures from <= |tr|
  {
    if tr == [] then 0
    else if Last(tr).Cleared? then |tr|
    else if Hard(Last(tr)) then |tr| - 1
    else EpochStart(Init(tr))
  }

  /** Position just after the latest IV was generated. */
  function WindowStart(tr: Trace): (from: nat)
    ensures from <= |tr|
  {
    if tr == [] then 0
    else if NewIv(Last(tr)) then |tr|
    else WindowStart(Init(tr))
  }

  function Polls(tr: Trace, from: nat, g: nat): nat {
    if |tr| <= from then 0
    else Polls(Init(tr), from, g) + if PollBy(Last(tr), g) then 1 else 0
  }

  predicate Attempted(tr: Trace, g: nat) {
    exists i :: 0 <= i < |tr| && AttemptBy(tr[i], g)
  }

  /** The command a reply would answer: the last observation, if it was accepted;
      only a new key may have come since. */
  function BeingAnswered(tr: Trace): (command: Option<Observation>)
    ensures command.Some? ==> Accepted(command.value)
  {
    if tr == [] then None
    else if Last(tr).Rekeyed? then BeingAnswered(Init(tr))
    else if Accepted(Last(tr)) then Some(Last(tr))
    else None
  }

  /** A LOCK or UNLOCK accepted under a generation. */
  predicate ActionBy(o: Observation, g: nat) {
    AttemptBy(o, g) && o.accepted && (o.command.kind == Lock || o.command.kind == Unlock)
  }

  /** How many actions of `g` were accepted from position `i` up to position `j`. */
  function ActionsBetween(tr: Trace, i: nat, j: nat, g: nat): nat
    requires i <= j <= |tr|
  {
    if i == j then 0 else ActionsBetween(tr, i, j - 1, g) + if ActionBy(tr[j - 1], g) then 1 else 0
  }

  /** An action with at most seven later ones of its generation. */
  predicate IsRecentAction(tr: Trace, i: nat, g: nat)
    requires i < |tr|
  {
    ActionBy(tr[i], g) && ActionsBetween(tr, i + 1, |tr|, g) <= 7
  }

  /** This ciphertext is among the last eight actions accepted under `g`. */
  predicate InWindow(tr: Trace, g: nat, ciphertext: seq<byte>) {
    exists i :: 0 <= i < |tr| && IsRecentAction(tr, i, g) && tr[i].ciphertext == ciphertext
  }

  /** The action ciphertexts accepted under one generation, oldest first. */
  function Actions(tr: Trace, g: nat): seq<seq<byte>> {
    if tr == [] then []
    else if ActionBy(Last(tr), g) then Actions(Init(tr), g) + [Last(tr).ciphertext]
    else Actions(Init(tr), g)
  }

  /** A generation superseded by another one of the same epoch. */
  predicate Superseded(tr: Trace) {
    IssuedInEpoch(tr) >= 2
  }

  predicate NoneMatchedAfter(tr: Trace, i: nat) {
    forall j :: i < j < |tr| ==> !Matched(tr[j])
  }

  /** The one-shot hand-off of `pred` to `succ`, read off the trace from the
      position where `succ` was generated: no connection boundary and no reset
      since, no readable non-poll under `pred`, at most one poll under it, and
      `succ` either unused or used once, by a poll, with no matched frame after. */
  predicate HandoffOpen(tr: Trace, from: nat, pred: nat, succ: nat) {
    && (forall i :: from <= i < |tr| ==> !tr[i].Boundary? && !tr[i].Cleared? && !NonPollBy(tr[i], pred))
    && Polls(tr, from, pred) <= 1
    && (forall i :: from <= i < |tr| && AttemptBy(tr[i], succ) ==>
          PollBy(tr[i], succ) && NoneMatchedAfter(tr, i))
  }

  /** No readable frame of `g` from position `from` on. */
  predicate Unused(tr: Trace, from: nat, g: nat) {
    forall i :: from <= i < |tr| ==> !AttemptBy(tr[i], g)
  }

  /** A frame was read under the latest generation. */
  predicate LatestUsed(tr: Trace) {
    Issued(tr) >= 1 && !Unused(tr, WindowStart(tr), Issued(tr) - 1)
  }

  /** The hand-off to the latest generation. */
  predicate Open(tr: Trace)
    requires Superseded(tr)
  {
    var n := Issued(tr);
    HandoffOpen(tr, WindowStart(tr), n - 2, n - 1)
  }

  /** How one more observation changes the hand-off. */
  lemma HandoffOpenExtends(tr: Trace, o: Observation, from: nat, pred: nat, succ: nat)
    requires from <= |tr|
    ensures Polls(tr + [o], from, pred) == Polls(tr, from, pred) + if PollBy(o, pred) then 1 else 0
    ensures Unused(tr + [o], from, succ) <==> Unused(tr, from, succ) && !AttemptBy(o, succ)
    ensures HandoffOpen(tr + [o], from, pred, succ) <==>
            && HandoffOpen(tr, from, pred, succ)
            && !o.Boundary? && !o.Cleared? && !NonPollBy(o, pred)
            && (PollBy(o, pred) ==> Polls(tr, from, pred) == 0)
            && !NonPollBy(o, succ)
            && (Matched(o) ==> Unused(tr, from, succ))
  {
    var ext := tr + [o];
    assert Init(ext) == tr && Last(ext) == o;
    assert forall i :: 0 <= i < |tr| ==> ext[i] == tr[i];
    assert ext[|tr|] == o;
    forall i: nat | i < |tr|
      ensures NoneMatchedAfter(ext, i) <==> NoneMatchedAfter(tr, i) && !Matched(o)
    {
    }
  }

  // ----- One more observation ------------------------------------------------

  lemma CountsExtend(tr: Trace, o: Observation)
    ensures Issued(tr + [o]) == Issued(tr) + if NewIv(o) then 1 else 0
    ensures IssuedInEpoch(tr + [o]) ==
            (if Hard(o) then 0 else IssuedInEpoch(tr)) + if NewIv(o) then 1 else 0
    ensures EpochStart(tr + [o]) ==
            if o.Cleared? then |tr| + 1 else if Hard(o) then |tr| else EpochStart(tr)
    ensures WindowStart(tr + [o]) == if NewIv(o) then |tr| + 1 else WindowStart(tr)
  {
    assert Init(tr + [o]) == tr && Last(tr + [o]) == o;
  }

  lemma ActionsExtend(tr: Trace, o: Observation, g: nat)
    ensures Actions(tr + [o], g) ==
            if ActionBy(o, g) then Actions(tr, g) + [o.ciphertext] else Actions(tr, g)
  {
    assert Init(tr + [o]) == tr && Last(tr + [o]) == o;
  }

  // ----- The replay window ---------------------------------------------------

  lemma {:induction false} ActionsCounted(tr: Trace, i: nat, j: nat, g: nat)
    requires i <= j <= |tr|
    ensures |Actions(tr[..j], g)| == |Actions(tr[..i], g)| + ActionsBetween(tr, i, j, g)
    decreases j - i
  {
    if i < j {
      ActionsCounted(tr, i, j - 1, g);
      assert Init(tr[..j]) == tr[..j - 1] && Last(tr[..j]) == tr[j - 1];
    }
  }

  lemma ActionsPrefix(tr: Trace, g: nat, i: nat, j: nat)
    requires i <= j <= |tr|
    ensures Actions(tr[..i], g) <= Actions(tr[..j], g)
    ensures i < j && ActionBy(tr[i], g) ==>
              var n := |Actions(tr[..i], g)|;
              n < |Actions(tr[..j], g)| && Actions(tr[..j], g)[n] == tr[i].ciphertext
    decreases j - i
  {
    if i < j {
      assert tr[..i + 1] == tr[..i] + [tr[i]];
      ActionsExtend(tr[..i], tr[i], g);
      ActionsPrefix(tr, g, i + 1, j);
    }
  }

  /** The observation that put the k-th entry on the list. */
  lemma {:induction false} ActionAt(tr: Trace, g: nat, k: nat) returns (i: nat)
    requires k < |Actions(tr, g)|
    ensures i < |tr| && ActionBy(tr[i], g) && |Actions(tr[..i], g)| == k && Actions(tr, g)[k] == tr[i].ciphertext
    decreases |tr|
  {
    var init := Init(tr);
    if k < |Actions(init, g)| {
      i := ActionAt(init, g, k);
      assert init[..i] == tr[..i];
    } else {
      i := |tr| - 1;
    }
  }

  /** An action's place on the list, and how many came after it. */
  lemma ActionsPosition(tr: Trace, g: nat, i: nat)
    requires i < |tr| && ActionBy(tr[i], g)
    ensures var n := |Actions(tr[..i], g)|;
            && n < |Actions(tr, g)| && Actions(tr, g)[n] == tr[i].ciphertext
            && |Actions(tr, g)| == n + 1 + ActionsBetween(tr, i + 1, |tr|, g)
  {
    assert tr[..|tr|] == tr;
    ActionsPrefix(tr, g, i, |tr|);
    assert tr[..i + 1] == tr[..i] + [tr[i]];
    ActionsExtend(tr[..i], tr[i], g);
    ActionsCounted(tr, i + 1, |tr|, g);
  }

  /** The end of the list of actions is what the window says it is. */
  lemma WindowIsRecent(tr: Trace, g: nat, ciphertext: seq<byte>)
    ensures ciphertext in Recent(Actions(tr, g)) <==> InWindow(tr, g, ciphertext)
  {
    var log := Actions(tr, g);
    var start := if |log| <= 8 then 0 else |log| - 8;
    assert Recent(log) == log[start..];
    assert tr[..|tr|] == tr;
    if ciphertext in log[start..] {
      var k :| start <= k < |log| && log[k] == ciphertext;
      var i := ActionAt(tr, g, k);
      ActionsPosition(tr, g, i);
      assert IsRecentAction(tr, i, g);
    }
    if InWindow(tr, g, ciphertext) {
      var i :| 0 <= i < |tr| && IsRecentAction(tr, i, g) && tr[i].ciphertext == ciphertext;
      ActionsPosition(tr, g, i);
      assert log[start..][|Actions(tr[..i], g)| - start] == ciphertext;
    }
  }
}
