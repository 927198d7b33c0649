/** Exactly-once execution on the slots of a session, over whole runs of the server's client state. */
module SessionSlots {
  import opened NfsTypes
  import opened Clients
  import Sequence

  /** The sequence id the step lets execute on this slot, if it does, once expired leases are gone. */
  ghost function ExecutedAfter(r: Registry, config: Config, now: int, a: Action, sid: SessionId, slotid: nat)
    : Option<Sequence.SequenceId>
  {
    if a.Preparing? && a.sid == sid && a.slotid == slotid
       && PrepareReaped(r, config, now, sid, slotid, a.requested, a.fingerprint, a.connection).0 == Answered(Sequence.Execute)
    then Some(a.requested) else None
  }

  ghost function ExecutedBy(r: Registry, config: Config, now: int, a: Action, sid: SessionId, slotid: nat)
    : Option<Sequence.SequenceId>
  {
    ExecutedAfter(Reap(r, config, now).1, config, now, a, sid, slotid)
  }

  /** Everything a run lets execute on this slot, in order. */
  ghost function Executed(r: Registry, config: Config, actions: seq<(int, Action)>, sid: SessionId, slotid: nat)
    : seq<Sequence.SequenceId>
    decreases |actions|
  {
    if actions == [] then []
    else
      var (now, a) := actions[0];
      var e := ExecutedBy(r, config, now, a, sid, slotid);
      var rest := Executed(Step(r, config, now, a).1, config, actions[1..], sid, slotid);
      if e.Some? then [e.value] + rest else rest
  }

  /** Each is one more than the one before, modulo 2^32. */
  predicate Consecutive(from: Sequence.SequenceId, ids: seq<Sequence.SequenceId>)
    decreases |ids|
  {
    ids == [] || (ids[0] == from && Consecutive((from + 1) % Sequence.WRAP, ids[1..]))
  }

  predicate HasSlot(r: Registry, sid: SessionId, slotid: nat) {
    sid in r.sessions && slotid < |r.sessions[sid].slots|
  }

  /** Expiry leaves a session as it is or ends it. */
  lemma ReapSlots(r: Registry, config: Config, now: int, sid: SessionId)
    ensures var r' := Reap(r, config, now).1;
            sid in r'.sessions ==> sid in r.sessions && r'.sessions[sid] == r.sessions[sid]
  {
  }

  /** What one step does to a slot. */
  ghost predicate SlotMoves(r: Registry, r': Registry, e: Option<Sequence.SequenceId>, sid: SessionId, slotid: nat)
    requires HasSlot(r, sid, slotid)
  {
    var x := r.sessions[sid].slots[slotid].sequenceId;
    && (e.Some? ==> e.value == x)
    && (sid in r'.sessions ==>
          && HasSlot(r', sid, slotid)
          && r'.sessions[sid].slots[slotid].sequenceId == if e.Some? then (x + 1) % Sequence.WRAP else x)
  }

  /** Only SEQUENCE that lets the slot execute moves its sequence id, by one. */
  lemma AfterSlot(r: Registry, config: Config, now: int, a: Action, sid: SessionId, slotid: nat)
    requires Inv(r) && HasSlot(r, sid, slotid) && a.Reaps()
    ensures SlotMoves(r, After(r, config, now, a).1, ExecutedAfter(r, config, now, a, sid, slotid), sid, slotid)
  {
    if a.Creating? {
      CreateLeavesSession(r, config, now, a, sid);
    }
  }

  lemma CreateLeavesSession(r: Registry, config: Config, now: int, a: Action, sid: SessionId)
    requires Inv(r) && sid in r.sessions && a.Creating?
    ensures var r' := After(r, config, now, a).1;
            sid in r'.sessions ==> r'.sessions[sid] == r.sessions[sid]
  {
    assert SessionOk(r, sid) && IssuedOk(r, sid);
  }

  lemma AfterEnded(r: Registry, config: Config, now: int, a: Action, sid: SessionId, slotid: nat)
    requires Inv(r) && sid in r.issued && sid !in r.sessions && a.Reaps()
    ensures sid !in After(r, config, now, a).1.sessions && ExecutedAfter(r, config, now, a, sid, slotid) == None
  {
    AfterIssues(r, config, now, a);
  }

  lemma FinishSlot(r: Registry, a: Action, sid: SessionId, slotid: nat)
    requires HasSlot(r, sid, slotid) && a.Finishing?
    ensures SlotMoves(r, FinishSequence(r, a.sid, a.slotid, a.fingerprint, a.response).1, None, sid, slotid)
  {
  }

  lemma ReapedSlot(r: Registry, reaped: Registry, config: Config, now: int, a: Action, sid: SessionId, slotid: nat)
    requires HasSlot(r, sid, slotid) && a.Reaps() && Inv(reaped) && sid in reaped.issued
    requires sid in reaped.sessions ==> reaped.sessions[sid] == r.sessions[sid]
    ensures SlotMoves(r, After(reaped, config, now, a).1, ExecutedAfter(reaped, config, now, a, sid, slotid), sid, slotid)
  {
    if sid in reaped.sessions {
      AfterSlot(reaped, config, now, a, sid, slotid);
    } else {
      AfterEnded(reaped, config, now, a, sid, slotid);
    }
  }

  lemma StepSlot(r: Registry, config: Config, now: int, a: Action, sid: SessionId, slotid: nat)
    requires Inv(r) && HasSlot(r, sid, slotid)
    ensures SlotMoves(r, Step(r, config, now, a).1, ExecutedBy(r, config, now, a, sid, slotid), sid, slotid)
  {
    if a.Finishing? {
      FinishSlot(r, a, sid, slotid);
    } else if a.Disconnecting? {
      assert Step(r, config, now, a).1.sessions[sid] == Unbound(r.sessions[sid], a.connection);
    } else if a.Reaps() {
      var reaped := Reap(r, config, now).1;
      assert sid in r.issued by {
        assert SessionOk(r, sid);
      }
      ReapKeeps(r, config, now);
      ReapSlots(r, config, now, sid);
      ReapedSlot(r, reaped, config, now, a, sid, slotid);
    }
  }

  /** A slot whose session has ended lets nothing execute, ever again. */
  lemma {:induction false} EndedExecutesNothing(r: Registry, config: Config, actions: seq<(int, Action)>, sid: SessionId, slotid: nat)
    requires Inv(r) && sid in r.issued && sid !in r.sessions
    ensures Executed(r, config, actions, sid, slotid) == []
    decreases |actions|
  {
    if actions != [] {
      var (now, a) := actions[0];
      StepKeepsInv(r, config, now, a);
      StepIssues(r, config, now, a);
      ReapSlots(r, config, now, sid);
      EndedExecutesNothing(Step(r, config, now, a).1, config, actions[1..], sid, slotid);
    }
  }

  /**
    In every run, whatever else the server does and however long the session lives, the sequence
    ids executed on a slot are consecutive from the one the slot stood at, modulo 2^32.
   */
  lemma {:induction false} ExecutedInOrder(r: Registry, config: Config, actions: seq<(int, Action)>, sid: SessionId, slotid: nat)
    requires Inv(r) && HasSlot(r, sid, slotid)
    ensures Consecutive(r.sessions[sid].slots[slotid].sequenceId, Executed(r, config, actions, sid, slotid))
    decreases |actions|
  {
    if actions != [] {
      var (now, a) := actions[0];
      var r' := Step(r, config, now, a).1;
      StepKeepsInv(r, config, now, a);
      StepSlot(r, config, now, a, sid, slotid);
      if sid in r'.sessions {
        ExecutedInOrder(r', config, actions[1..], sid, slotid);
      } else {
        StepIssues(r, config, now, a);
        assert SessionOk(r, sid);
        EndedExecutesNothing(r', config, actions[1..], sid, slotid);
      }
      var e, rest := ExecutedBy(r, config, now, a, sid, slotid), Executed(r', config, actions[1..], sid, slotid);
      if e.Some? {
        assert ([e.value] + rest)[1..] == rest;
      }
    }
  }

  lemma {:induction false} ConsecutiveAt(from: Sequence.SequenceId, ids: seq<Sequence.SequenceId>, i: nat)
    requires Consecutive(from, ids) && i < |ids|
    ensures ids[i] == (from + i) % Sequence.WRAP
    decreases i
  {
    if i > 0 {
      ConsecutiveAt((from + 1) % Sequence.WRAP, ids[1..], i - 1);
      OneFurther(from, i);
    }
  }

  lemma OneFurther(x: Sequence.SequenceId, i: nat)
    requires i > 0
    ensures ((x + 1) % Sequence.WRAP + (i - 1)) % Sequence.WRAP == (x + i) % Sequence.WRAP
  {
    if x + 1 == Sequence.WRAP {
      assert (x + i) % Sequence.WRAP == (i - 1 + Sequence.WRAP) % Sequence.WRAP;
    }
  }

  /** In every run, within 2^32 executions of a slot no sequence id is executed twice. */
  lemma NoneTwice(r: Registry, config: Config, actions: seq<(int, Action)>, sid: SessionId, slotid: nat, i: nat, j: nat)
    requires Inv(r) && HasSlot(r, sid, slotid)
    requires i < j < |Executed(r, config, actions, sid, slotid)| && j - i < Sequence.WRAP
    ensures Executed(r, config, actions, sid, slotid)[i] != Executed(r, config, actions, sid, slotid)[j]
  {
    ExecutedInOrder(r, config, actions, sid, slotid);
    ConsecutiveDistinct(r.sessions[sid].slots[slotid].sequenceId, Executed(r, config, actions, sid, slotid), i, j);
  }

  lemma ConsecutiveDistinct(from: Sequence.SequenceId, ids: seq<Sequence.SequenceId>, i: nat, j: nat)
    requires Consecutive(from, ids) && i < j < |ids| && j - i < Sequence.WRAP
    ensures ids[i] != ids[j]
  {
    ConsecutiveAt(from, ids, i);
    ConsecutiveAt(from, ids, j);
    Sequence.SameRemainder(from + i, from + j);
  }

  /** A slot of a new session stands at 1. */
  lemma NewSlotsStandAtOne(clientid: ClientId, maxRequests: nat, connection: nat, back: bool, slotid: nat)
    ensures var s := NewSession(clientid, maxRequests, connection, back);
            1 <= |s.slots| <= MAX_FORE_CHAN_SLOTS && (slotid < |s.slots| ==> s.slots[slotid] == Sequence.NEW_SLOT)
  {
  }

  // ---- The slot's own history ----

  /** SEQUENCE on this slot, past every check that comes before the slot. */
  predicate Reaches(r: Registry, sid: SessionId, slotid: nat, connection: nat) {
    Refused(r, sid, slotid, connection) == None && r.clients[r.sessions[sid].clientid].lease.Active?
  }

  /** One operation of a run; `token` says which execution of the slot a completion belongs to. */
  datatype Event = Event(now: int, op: Action, token: nat)

  /** A completion carries the token of an execution that has not ended: its index and its fingerprint. */
  ghost predicate Honest(w: Sequence.World, e: Event, sid: SessionId, slotid: nat) {
    e.op.Finishing? && e.op.sid == sid && e.op.slotid == slotid ==>
      e.token < |w.executed| && e.token !in w.replies && w.executed[e.token].fingerprint == e.op.fingerprint
  }

  /** What the operation is to the slot, if it is anything. */
  ghost function SlotAction(r: Registry, config: Config, e: Event, sid: SessionId, slotid: nat): Option<Sequence.Action> {
    if e.op.Preparing? && e.op.sid == sid && e.op.slotid == slotid
       && Reaches(Reap(r, config, e.now).1, sid, slotid, e.op.connection)
    then Some(Sequence.Request(e.op.requested, e.op.fingerprint))
    else if e.op.Finishing? && e.op.sid == sid && e.op.slotid == slotid && HasSlot(r, sid, slotid)
    then Some(Sequence.Complete(e.token, e.op.response))
    else None
  }

  ghost function Tracked(w: Sequence.World, r: Registry, config: Config, e: Event, sid: SessionId, slotid: nat): Sequence.World {
    match SlotAction(r, config, e, sid, slotid)
    case Some(a) => Sequence.Step(w, a)
    case None => w
  }

  /** The history of the slot along a run of the whole client state. */
  ghost function Track(w: Sequence.World, r: Registry, config: Config, events: seq<Event>, sid: SessionId, slotid: nat)
    : Sequence.World
    decreases |events|
  {
    if events == [] then w
    else Track(Tracked(w, r, config, events[0], sid, slotid), After1(r, config, events[0]), config, events[1..], sid, slotid)
  }

  ghost function After1(r: Registry, config: Config, e: Event): Registry {
    Step(r, config, e.now, e.op).1
  }

  ghost function RunEvents(r: Registry, config: Config, events: seq<Event>): Registry
    decreases |events|
  {
    if events == [] then r else RunEvents(After1(r, config, events[0]), config, events[1..])
  }

  ghost predicate AllHonest(w: Sequence.World, r: Registry, config: Config, events: seq<Event>, sid: SessionId, slotid: nat)
    decreases |events|
  {
    events == []
    || (Honest(w, events[0], sid, slotid)
        && AllHonest(Tracked(w, r, config, events[0], sid, slotid), After1(r, config, events[0]), config, events[1..], sid, slotid))
  }

  /** While the session lives, its slot is the slot of the history. */
  ghost predicate Follows(w: Sequence.World, r: Registry, sid: SessionId, slotid: nat) {
    && Sequence.Inv(w) && Inv(r) && sid in r.issued
    && (sid in r.sessions ==> HasSlot(r, sid, slotid) && r.sessions[sid].slots[slotid] == w.slot)
  }

  lemma AfterSlotExact(r: Registry, config: Config, now: int, a: Action, sid: SessionId, slotid: nat)
    requires Inv(r) && HasSlot(r, sid, slotid) && a.Reaps()
    ensures var r' := After(r, config, now, a).1;
            sid in r'.sessions ==>
              && HasSlot(r', sid, slotid)
              && r'.sessions[sid].slots[slotid]
                 == if a.Preparing? && a.sid == sid && a.slotid == slotid && Reaches(r, sid, slotid, a.connection)
                    then Sequence.Prepare(r.sessions[sid].slots[slotid], a.requested, a.fingerprint).1
                    else r.sessions[sid].slots[slotid]
  {
    if a.Creating? {
      CreateLeavesSession(r, config, now, a, sid);
    }
  }

  lemma FinishSlotExact(r: Registry, a: Action, sid: SessionId, slotid: nat)
    requires HasSlot(r, sid, slotid) && a.Finishing?
    ensures var r' := FinishSequence(r, a.sid, a.slotid, a.fingerprint, a.response).1;
            && HasSlot(r', sid, slotid)
            && r'.sessions[sid].slots[slotid]
               == if a.sid == sid && a.slotid == slotid
                  then Sequence.Finish(r.sessions[sid].slots[slotid], a.fingerprint, a.response)
                  else r.sessions[sid].slots[slotid]
  {
  }

  lemma ReapedFollows(w: Sequence.World, reaped: Registry, config: Config, e: Event, sid: SessionId, slotid: nat)
    requires Follows(w, reaped, sid, slotid) && e.op.Reaps()
    ensures var w' := if e.op.Preparing? && e.op.sid == sid && e.op.slotid == slotid && Reaches(reaped, sid, slotid, e.op.connection)
                      then Sequence.Step(w, Sequence.Request(e.op.requested, e.op.fingerprint)) else w;
            var r' := After(reaped, config, e.now, e.op).1;
            sid in r'.sessions ==> HasSlot(r', sid, slotid) && r'.sessions[sid].slots[slotid] == w'.slot
  {
    if sid in reaped.sessions {
      AfterSlotExact(reaped, config, e.now, e.op, sid, slotid);
    } else {
      AfterEnded(reaped, config, e.now, e.op, sid, slotid);
    }
  }

  lemma ReapFollows(w: Sequence.World, r: Registry, config: Config, now: int, sid: SessionId, slotid: nat)
    requires Follows(w, r, sid, slotid)
    ensures Follows(w, Reap(r, config, now).1, sid, slotid)
  {
    ReapKeeps(r, config, now);
    ReapSlots(r, config, now, sid);
  }

  lemma FinishFollows(w: Sequence.World, r: Registry, config: Config, e: Event, sid: SessionId, slotid: nat)
    requires Follows(w, r, sid, slotid) && Honest(w, e, sid, slotid) && e.op.Finishing?
    ensures var r' := After1(r, config, e);
            sid in r'.sessions ==> HasSlot(r', sid, slotid) && r'.sessions[sid].slots[slotid] == Tracked(w, r, config, e, sid, slotid).slot
  {
    if sid in r.sessions {
      FinishSlotExact(r, e.op, sid, slotid);
    }
  }

  lemma TrackedKeepsInv(w: Sequence.World, r: Registry, config: Config, e: Event, sid: SessionId, slotid: nat)
    requires Sequence.Inv(w)
    ensures Sequence.Inv(Tracked(w, r, config, e, sid, slotid))
  {
    var a := SlotAction(r, config, e, sid, slotid);
    if a.Some? {
      Sequence.StepKeepsInv(w, a.value);
    }
  }

  lemma StepFollows(w: Sequence.World, r: Registry, config: Config, e: Event, sid: SessionId, slotid: nat)
    requires Follows(w, r, sid, slotid) && Honest(w, e, sid, slotid)
    ensures Follows(Tracked(w, r, config, e, sid, slotid), After1(r, config, e), sid, slotid)
  {
    TrackedKeepsInv(w, r, config, e, sid, slotid);
    StepKeepsInv(r, config, e.now, e.op);
    StepIssues(r, config, e.now, e.op);
    if e.op.Finishing? {
      FinishFollows(w, r, config, e, sid, slotid);
    } else if e.op.Disconnecting? {
      assert After1(r, config, e).sessions.Keys == r.sessions.Keys;
    } else if e.op.Reaps() {
      ReapFollows(w, r, config, e.now, sid, slotid);
      ReapedFollows(w, Reap(r, config, e.now).1, config, e, sid, slotid);
    }
  }

  /** In every run of the client state a slot is the slot of its own history, as long as its session lives. */
  lemma {:induction false} RunFollows(w: Sequence.World, r: Registry, config: Config, events: seq<Event>, sid: SessionId, slotid: nat)
    requires Follows(w, r, sid, slotid) && AllHonest(w, r, config, events, sid, slotid)
    ensures Follows(Track(w, r, config, events, sid, slotid), RunEvents(r, config, events), sid, slotid)
    decreases |events|
  {
    if events != [] {
      var w', r' := Tracked(w, r, config, events[0], sid, slotid), After1(r, config, events[0]);
      StepFollows(w, r, config, events[0], sid, slotid);
      RunFollows(w', r', config, events[1..], sid, slotid);
    }
  }

  // ---- What a session's client gets ----

  /** The server's answer to SEQUENCE after a run. */
  ghost function AnswerTo(r: Registry, config: Config, now: int, sid: SessionId, slotid: nat, seqid: Sequence.SequenceId,
                          fingerprint: Bytes, connection: nat): SequenceAnswer
  {
    PrepareReaped(Reap(r, config, now).1, config, now, sid, slotid, seqid, fingerprint, connection).0
  }

  /** Past the checks before the slot, the answer is the slot's; short of them it is never a replay. */
  lemma AnswerIsSlots(w: Sequence.World, r: Registry, config: Config, now: int, sid: SessionId, slotid: nat,
                      seqid: Sequence.SequenceId, fingerprint: Bytes, connection: nat)
    requires Follows(w, r, sid, slotid)
    ensures var answer := AnswerTo(r, config, now, sid, slotid, seqid, fingerprint, connection);
            if Reaches(Reap(r, config, now).1, sid, slotid, connection)
            then answer == Answered(Sequence.Prepare(w.slot, seqid, fingerprint).0)
            else answer == StatusOnly || (answer.Answered? && answer.answer.Error?)
  {
    ReapFollows(w, r, config, now, sid, slotid);
  }

  /** On a slot of a new session: a replay is the reply recorded for an execution of the slot with the same fingerprint. */
  lemma SessionReplayIsRecorded(r: Registry, config: Config, events: seq<Event>, sid: SessionId, slotid: nat, now: int,
                                seqid: Sequence.SequenceId, fingerprint: Bytes, connection: nat, response: Bytes)
    returns (i: nat)
    requires Follows(Sequence.START, r, sid, slotid) && AllHonest(Sequence.START, r, config, events, sid, slotid)
    requires AnswerTo(RunEvents(r, config, events), config, now, sid, slotid, seqid, fingerprint, connection)
             == Answered(Sequence.Replay(response))
    ensures var w := Track(Sequence.START, r, config, events, sid, slotid);
            && i < |w.executed| && w.executed[i].fingerprint == fingerprint && i in w.replies && w.replies[i] == response
            && seqid == w.executed[|w.executed| - 1].seqid
  {
    var w := Track(Sequence.START, r, config, events, sid, slotid);
    RunFollows(Sequence.START, r, config, events, sid, slotid);
    AnswerIsSlots(w, RunEvents(r, config, events), config, now, sid, slotid, seqid, fingerprint, connection);
    i := Sequence.ReplayAt(w, seqid, fingerprint);
  }

  /** The answer to sending the latest request of the slot again. */
  ghost function RetryTo(w: Sequence.World, r: Registry, config: Config, now: int, sid: SessionId, slotid: nat, connection: nat)
    : SequenceAnswer
    requires w.executed != []
  {
    var last := w.executed[|w.executed| - 1];
    AnswerTo(r, config, now, sid, slotid, last.seqid, last.fingerprint, connection)
  }

  /** The delay while it runs, and then the reply of that very execution. */
  ghost predicate ServedAs(w: Sequence.World, answer: SequenceAnswer)
    requires w.executed != []
  {
    var n := |w.executed| - 1;
    answer == Answered(if n in w.replies then Sequence.Replay(w.replies[n]) else Sequence.Error(Delay))
  }

  /** On a slot of a new session, past the lease and binding checks: when a retry of the latest request is served. */
  lemma SessionRetryServedExactly(r: Registry, config: Config, events: seq<Event>, sid: SessionId, slotid: nat, now: int, connection: nat)
    requires Follows(Sequence.START, r, sid, slotid) && AllHonest(Sequence.START, r, config, events, sid, slotid)
    requires Track(Sequence.START, r, config, events, sid, slotid).executed != []
    requires Reaches(Reap(RunEvents(r, config, events), config, now).1, sid, slotid, connection)
    ensures var w := Track(Sequence.START, r, config, events, sid, slotid);
            ServedAs(w, RetryTo(w, RunEvents(r, config, events), config, now, sid, slotid, connection))
            <==> Sequence.EndedInTurn(w) || Sequence.SameReplyAnyway(w)
  {
    var w, r' := Track(Sequence.START, r, config, events, sid, slotid), RunEvents(r, config, events);
    RunFollows(Sequence.START, r, config, events, sid, slotid);
    var last := w.executed[|w.executed| - 1];
    AnswerIsSlots(w, r', config, now, sid, slotid, last.seqid, last.fingerprint, connection);
    Sequence.RetryAt(w);
  }

  /** The session's client sends nothing new on the slot before every earlier reply is there. */
  ghost predicate AllAwait(w: Sequence.World, r: Registry, config: Config, events: seq<Event>, sid: SessionId, slotid: nat)
    decreases |events|
  {
    events == []
    || ((SlotAction(r, config, events[0], sid, slotid).Some? ==>
           Sequence.Awaits(w, SlotAction(r, config, events[0], sid, slotid).value))
        && AllAwait(Tracked(w, r, config, events[0], sid, slotid), After1(r, config, events[0]), config, events[1..], sid, slotid))
  }

  lemma {:induction false} AwaitingKeeps(w: Sequence.World, r: Registry, config: Config, events: seq<Event>, sid: SessionId, slotid: nat)
    requires Sequence.Inv(w) && Sequence.OnlyLastPending(w) && AllAwait(w, r, config, events, sid, slotid)
    ensures Sequence.OnlyLastPending(Track(w, r, config, events, sid, slotid))
    decreases |events|
  {
    if events != [] {
      TrackedKeepsInv(w, r, config, events[0], sid, slotid);
      if SlotAction(r, config, events[0], sid, slotid).Some? {
        Sequence.StepKeepsLastPending(w, SlotAction(r, config, events[0], sid, slotid).value);
      }
      AwaitingKeeps(Tracked(w, r, config, events[0], sid, slotid), After1(r, config, events[0]), config, events[1..], sid, slotid);
    }
  }

  /** A client that awaits each reply of the slot always gets, past the lease and binding checks, the delay or its own reply. */
  lemma SessionAwaitingIsServed(r: Registry, config: Config, events: seq<Event>, sid: SessionId, slotid: nat, now: int, connection: nat)
    requires Follows(Sequence.START, r, sid, slotid) && AllHonest(Sequence.START, r, config, events, sid, slotid)
    requires AllAwait(Sequence.START, r, config, events, sid, slotid)
    requires Track(Sequence.START, r, config, events, sid, slotid).executed != []
    requires Reaches(Reap(RunEvents(r, config, events), config, now).1, sid, slotid, connection)
    ensures var w := Track(Sequence.START, r, config, events, sid, slotid);
            ServedAs(w, RetryTo(w, RunEvents(r, config, events), config, now, sid, slotid, connection))
  {
    AwaitingKeeps(Sequence.START, r, config, events, sid, slotid);
    SessionRetryServedExactly(r, config, events, sid, slotid, now, connection);
  }

  /** A session just created starts such a history on each of its slots. */
  lemma NewSessionFollows(r: Registry, config: Config, now: int, a: Action, slotid: nat)
    requires Inv(r) && a.Creating?
    ensures var (res, _, r') := CreateSession(r, config, now, a.clientid, a.seqid, a.maxRequests, a.connection, a.back);
            res.Success? && slotid < |r'.sessions[res.value].slots| ==> Follows(Sequence.START, r', res.value, slotid)
  {
    ReapKeeps(r, config, now);
    CreatedFollows(Reap(r, config, now).1, config, now, a, slotid);
  }

  lemma CreatedFollows(r: Registry, config: Config, now: int, a: Action, slotid: nat)
    requires Inv(r) && a.Creating?
    ensures var (res, _, r') := CreateReaped(r, config, now, a.clientid, a.seqid, a.maxRequests, a.connection, a.back);
            res.Success? && slotid < |r'.sessions[res.value].slots| ==> Follows(Sequence.START, r', res.value, slotid)
  {
    CreateKeeps(r, config, now, a.clientid, a.seqid, a.maxRequests, a.connection, a.back);
    NewSlotsStandAtOne(a.clientid, a.maxRequests, a.connection, a.back, slotid);
  }
}
