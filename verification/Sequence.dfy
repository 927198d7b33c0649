/**
  One slot of a session: exactly-once execution by sequence id, with the reply kept for a retry.
  A run interleaves requests with the completions of earlier executions, in any order.
 */
module Sequence {
  import opened NfsTypes

  const WRAP: int := 0x1_0000_0000

  type SequenceId = x: int | 0 <= x < WRAP

  datatype Cached = Cached(fingerprint: Bytes, response: Bytes)

  datatype Slot = Slot(sequenceId: SequenceId, inProgress: Option<Bytes>, cached: Option<Cached>)

  const NEW_SLOT: Slot := Slot(1, None, None)

  datatype Answer = Execute | Replay(response: Bytes) | Error(status: Status)

  /** SEQUENCE on a slot, once the session, lease and connection have been accepted. */
  function Prepare(slot: Slot, seqid: SequenceId, fingerprint: Bytes): (Answer, Slot) {
    if seqid == slot.sequenceId then
      (Execute, Slot((slot.sequenceId + 1) % WRAP, Some(fingerprint), None))
    else if seqid != (slot.sequenceId - 1) % WRAP then (Error(SeqMisordered), slot)
    else if slot.inProgress.Some? then
      (Error(if slot.inProgress.value == fingerprint then Delay else SeqFalseRetry), slot)
    else if slot.cached.Some? then
      (if slot.cached.value.fingerprint == fingerprint then Replay(slot.cached.value.response) else Error(SeqFalseRetry), slot)
    else (Error(Serverfault), slot)
  }

  /** The end of an execution: its reply is kept. */
  function Finish(slot: Slot, fingerprint: Bytes, response: Bytes): Slot {
    slot.(inProgress := None, cached := Some(Cached(fingerprint, response)))
  }

  /**
    What SEQUENCE answers: the next id executes and takes the slot over; the id before it is a retry,
    answered by what became of the latest request; any other id is out of order. Only the first
    changes the slot.
   */
  lemma PrepareDecides(slot: Slot, seqid: SequenceId, fingerprint: Bytes)
    ensures var (answer, slot') := Prepare(slot, seqid, fingerprint);
            var retry := (seqid + 1) % WRAP == slot.sequenceId;
            && (answer == Execute <==> seqid == slot.sequenceId)
            && (answer == Error(SeqMisordered) <==> seqid != slot.sequenceId && !retry)
            && (answer.Replay? <==> retry && slot.inProgress == None && slot.cached == Some(Cached(fingerprint, Reply(answer))))
            && (answer == Error(Delay) <==> retry && slot.inProgress == Some(fingerprint))
            && (answer == Error(SeqFalseRetry) <==> retry && (if slot.inProgress.Some? then slot.inProgress != Some(fingerprint)
                                                              else slot.cached.Some? && slot.cached.value.fingerprint != fingerprint))
            && (answer == Error(Serverfault) <==> retry && slot.inProgress == None && slot.cached == None)
            && (if answer == Execute then slot'.sequenceId == (seqid + 1) % WRAP && slot'.inProgress == Some(fingerprint) && slot'.cached == None
                else slot' == slot)
  {
  }

  function Reply(answer: Answer): Bytes {
    if answer.Replay? then answer.response else []
  }

  /** A request that ends is no longer in progress, and a retry of it gets its reply. */
  lemma FinishServes(slot: Slot, seqid: SequenceId, fingerprint: Bytes, response: Bytes)
    requires seqid == slot.sequenceId
    ensures var done := Finish(Prepare(slot, seqid, fingerprint).1, fingerprint, response);
            Prepare(done, seqid, fingerprint) == (Replay(response), done)
  {
  }

  // ---- Runs ----

  datatype Execution = Execution(seqid: SequenceId, fingerprint: Bytes)

  /**
    A slot with its history: every execution in order, the replies of those that finished, and
    the one that finished last since the latest execution began. No step reads the history.
   */
  datatype World = World(slot: Slot, executed: seq<Execution>, replies: map<nat, Bytes>, lastDone: Option<nat>)

  datatype Action =
    | Request(seqid: SequenceId, fingerprint: Bytes)
    | Complete(i: nat, response: Bytes)            // execution i ends

  function Step(w: World, a: Action): World {
    match a
    case Request(seqid, fp) =>
      var (answer, slot) := Prepare(w.slot, seqid, fp);
      if answer.Execute? then World(slot, w.executed + [Execution(seqid, fp)], w.replies, None) else w.(slot := slot)
    case Complete(i, response) =>
      if i < |w.executed| && i !in w.replies
      then World(Finish(w.slot, w.executed[i].fingerprint, response), w.executed, w.replies[i := response], Some(i))
      else w
  }

  function Run(w: World, actions: seq<Action>): World
    decreases |actions|
  {
    if actions == [] then w else Run(Step(w, actions[0]), actions[1..])
  }

  const START: World := World(NEW_SLOT, [], map[], None)

  ghost predicate Inv(w: World) {
    && w.slot.sequenceId == (|w.executed| + 1) % WRAP
    && (forall i | 0 <= i < |w.executed| :: w.executed[i].seqid == (i + 1) % WRAP)
    && (forall i | i in w.replies :: i < |w.executed|)
    && match w.lastDone
       case None =>
         && w.slot.cached == None
         && w.slot.inProgress == (if w.executed == [] then None else Some(w.executed[|w.executed| - 1].fingerprint))
         && (w.executed != [] ==> |w.executed| - 1 !in w.replies)
       case Some(k) =>
         && w.executed != [] && k in w.replies && w.slot.inProgress == None
         && w.slot.cached == Some(Cached(w.executed[k].fingerprint, w.replies[k]))
  }

  lemma StepKeepsInv(w: World, a: Action)
    requires Inv(w)
    ensures Inv(Step(w, a))
    ensures w.executed <= Step(w, a).executed && forall i | i in w.replies :: i in Step(w, a).replies && Step(w, a).replies[i] == w.replies[i]
  {
    if a.Request? && a.seqid == w.slot.sequenceId {
      NextId(|w.executed| + 1);
    }
  }

  lemma NextId(n: nat)
    ensures (n % WRAP + 1) % WRAP == (n + 1) % WRAP
  {
  }

  lemma PreviousId(n: nat)
    requires n > 0
    ensures (n % WRAP - 1) % WRAP == (n - 1) % WRAP
  {
  }

  lemma {:induction false} RunKeepsInv(w: World, actions: seq<Action>)
    requires Inv(w)
    ensures Inv(Run(w, actions))
    decreases |actions|
  {
    if actions != [] {
      StepKeepsInv(w, actions[0]);
      RunKeepsInv(Step(w, actions[0]), actions[1..]);
    }
  }

  /** In every run the executed sequence ids are consecutive from 1, modulo 2^32. */
  lemma ExecutedConsecutively(actions: seq<Action>, i: nat)
    requires i < |Run(START, actions).executed|
    ensures Run(START, actions).executed[i].seqid == (i + 1) % WRAP
  {
    RunKeepsInv(START, actions);
  }

  /** So no sequence id is executed twice within 2^32 executions. */
  lemma ExecutedOnce(actions: seq<Action>, i: nat, j: nat)
    requires i < j < |Run(START, actions).executed| && j - i < WRAP
    ensures Run(START, actions).executed[i].seqid != Run(START, actions).executed[j].seqid
  {
    ExecutedConsecutively(actions, i);
    ExecutedConsecutively(actions, j);
    SameRemainder(i + 1, j + 1);
  }

  lemma SameRemainder(a: nat, b: nat)
    requires a < b && b - a < WRAP
    ensures a % WRAP != b % WRAP
  {
    var qa, qb := a / WRAP, b / WRAP;
    assert a == WRAP * qa + a % WRAP && b == WRAP * qb + b % WRAP;
    assert b - a == WRAP * (qb - qa) + (b % WRAP - a % WRAP);
  }

  lemma ReplayAt(w: World, seqid: SequenceId, fingerprint: Bytes) returns (i: nat)
    requires Inv(w) && Prepare(w.slot, seqid, fingerprint).0.Replay?
    ensures && i < |w.executed| && w.executed[i].fingerprint == fingerprint && i in w.replies
            && w.replies[i] == Prepare(w.slot, seqid, fingerprint).0.response
            && seqid == w.executed[|w.executed| - 1].seqid
  {
    i := w.lastDone.value;
    PreviousId(|w.executed| + 1);
  }

  /** A replay is, byte for byte, the reply recorded for an execution with the same fingerprint. */
  lemma ReplayIsRecorded(actions: seq<Action>, seqid: SequenceId, fingerprint: Bytes) returns (i: nat)
    requires Prepare(Run(START, actions).slot, seqid, fingerprint).0.Replay?
    ensures var w := Run(START, actions);
            && i < |w.executed| && w.executed[i].fingerprint == fingerprint && i in w.replies
            && w.replies[i] == Prepare(w.slot, seqid, fingerprint).0.response
            && seqid == w.executed[|w.executed| - 1].seqid
  {
    RunKeepsInv(START, actions);
    i := ReplayAt(Run(START, actions), seqid, fingerprint);
  }

  // ---- An identical retry of the latest request ----

  /** The answer to sending the latest executed request again. */
  function Retry(w: World): Answer
    requires w.executed != []
  {
    var last := w.executed[|w.executed| - 1];
    Prepare(w.slot, last.seqid, last.fingerprint).0
  }

  /** What the retry should get: the reply of that very execution, or a delay while it runs. */
  ghost predicate RetryServed(w: World)
    requires w.executed != []
  {
    var n := |w.executed| - 1;
    if n in w.replies then Retry(w) == Replay(w.replies[n]) else Retry(w) == Error(Delay)
  }

  /** No earlier execution was the last to end since the latest one began. */
  ghost predicate EndedInTurn(w: World) {
    w.lastDone == None || w.lastDone == Some(|w.executed| - 1)
  }

  /** The execution that ended last has the fingerprint of the latest one, and both have ended with one reply. */
  ghost predicate SameReplyAnyway(w: World) {
    var n := |w.executed| - 1;
    && w.lastDone.Some? && w.lastDone.value in w.replies && n in w.replies && w.lastDone.value < |w.executed|
    && w.executed[w.lastDone.value].fingerprint == w.executed[n].fingerprint && w.replies[w.lastDone.value] == w.replies[n]
  }

  lemma RetryAt(w: World)
    requires Inv(w) && w.executed != []
    ensures RetryServed(w) <==> EndedInTurn(w) || SameReplyAnyway(w)
    ensures !EndedInTurn(w) && w.executed[w.lastDone.value].fingerprint != w.executed[|w.executed| - 1].fingerprint ==>
              Retry(w) == Error(SeqFalseRetry)
  {
    var n := |w.executed| - 1;
    PreviousId(n + 2);
    ConsecutiveDiffer(n + 1);
  }

  /**
    In every run, a retry of the latest request is served if and only if no earlier execution
    ended last since it began, or that one had the same fingerprint and the same reply. Ending an
    execution does not look at which one is current. Requests with different sequence ids have
    different fingerprints, by Xdr.FingerprintInjective; then the retry is called false.
   */
  lemma RetryServedExactly(actions: seq<Action>)
    requires Run(START, actions).executed != []
    ensures var w := Run(START, actions);
            && (w.lastDone.Some? ==> w.lastDone.value < |w.executed|)
            && (RetryServed(w) <==> EndedInTurn(w) || SameReplyAnyway(w))
            && (!EndedInTurn(w) && w.executed[w.lastDone.value].fingerprint != w.executed[|w.executed| - 1].fingerprint ==>
                  Retry(w) == Error(SeqFalseRetry))
  {
    RunKeepsInv(START, actions);
    RetryAt(Run(START, actions));
  }

  lemma ConsecutiveDiffer(n: nat)
    ensures n % WRAP != (n + 1) % WRAP
  {
    SameRemainder(n, n + 1);
  }

  /** Whether the client sends nothing new before every earlier reply is there. */
  ghost predicate Awaits(w: World, a: Action) {
    a.Request? && a.seqid == w.slot.sequenceId ==> forall i | 0 <= i < |w.executed| :: i in w.replies
  }

  /** A client that waits for each reply before its next request. */
  ghost predicate Awaiting(w: World, actions: seq<Action>)
    decreases |actions|
  {
    actions == [] || (Awaits(w, actions[0]) && Awaiting(Step(w, actions[0]), actions[1..]))
  }

  ghost predicate OnlyLastPending(w: World) {
    && (forall i | 0 <= i < |w.executed| - 1 :: i in w.replies)
    && (w.executed != [] ==> EndedInTurn(w))
  }

  lemma StepKeepsLastPending(w: World, a: Action)
    requires Inv(w) && OnlyLastPending(w) && Awaits(w, a)
    ensures OnlyLastPending(Step(w, a))
  {
  }

  lemma {:induction false} AwaitingLastDone(w: World, actions: seq<Action>)
    requires Inv(w) && Awaiting(w, actions) && OnlyLastPending(w)
    ensures OnlyLastPending(Run(w, actions))
    decreases |actions|
  {
    if actions != [] {
      StepKeepsInv(w, actions[0]);
      StepKeepsLastPending(w, actions[0]);
      AwaitingLastDone(Step(w, actions[0]), actions[1..]);
    }
  }

  /** Such a client gets, on an identical retry, only a delay or the reply of that execution. */
  lemma AwaitingClientIsServed(actions: seq<Action>)
    requires Awaiting(START, actions) && Run(START, actions).executed != []
    ensures RetryServed(Run(START, actions))
  {
    AwaitingLastDone(START, actions);
    RunKeepsInv(START, actions);
    RetryAt(Run(START, actions));
  }

  /** One that does not wait can be refused its own reply for good: 1 and 2 start, 2 ends, 1 ends. */
  lemma PipelinedClientLosesReply(a: Bytes, b: Bytes, ra: Bytes, rb: Bytes)
    requires a != b
    ensures var w := Run(START, [Request(1, a), Request(2, b), Complete(1, rb), Complete(0, ra)]);
            && w.executed == [Execution(1, a), Execution(2, b)] && 1 in w.replies && w.replies[1] == rb
            && Retry(w) == Error(SeqFalseRetry)
  {
    var acts := [Request(1, a), Request(2, b), Complete(1, rb), Complete(0, ra)];
    var w1 := Step(START, acts[0]);
    var w2 := Step(w1, acts[1]);
    var w3 := Step(w2, acts[2]);
    var w4 := Step(w3, acts[3]);
    assert acts[1..][1..] == acts[2..] && acts[2..][1..] == acts[3..] && acts[3..][1..] == [];
    assert Run(w3, acts[3..]) == w4;
    assert Run(w2, acts[2..]) == w4;
    assert Run(w1, acts[1..]) == w4;
  }
}
