/**
  What each operation on client records and sessions answers and leaves behind, and how long a
  lease lasts: a client that keeps sending SEQUENCE in time never loses anything.
 */
module ClientEffects {
  import opened NfsTypes
  import opened Clients
  import Sequence

  // ---- Expiry ----

  predicate Overdue(r: Registry, now: int, c: ClientId) {
    c in r.clients && r.clients[c].lease.Active? && r.clients[c].lease.deadline <= now
  }

  /** Revoked, now or before, and nobody is to hear of it any more: the time is up or no session is left. */
  ghost predicate Expendable(r: Registry, config: Config, now: int, c: ClientId) {
    && c in r.clients && (Overdue(r, now, c) || r.clients[c].lease.Revoked?)
    && (!HasSession(r, c)
        || config.retention == 0
        || (r.clients[c].lease.Revoked? && r.clients[c].lease.since + config.retention <= now))
  }

  /** Expiry takes from exactly the overdue and the forgotten; it drops the forgotten with their sessions and leaves the rest. */
  lemma ReapExactly(r: Registry, config: Config, now: int, c: ClientId, sid: SessionId)
    ensures var (lost, r') := Reap(r, config, now);
            && (c in lost <==> Overdue(r, now, c) || Expendable(r, config, now, c))
            && (c in r'.clients <==> c in r.clients && !Expendable(r, config, now, c))
            && (c in r'.clients ==> r'.clients[c] == if Overdue(r, now, c) then r.clients[c].(lease := Revoked(now)) else r.clients[c])
            && (sid in r'.sessions <==> sid in r.sessions && !Expendable(r, config, now, r.sessions[sid].clientid))
            && (sid in r'.sessions ==> r'.sessions[sid] == r.sessions[sid])
            && r'.next == r.next && r'.issued == r.issued
  {
    ForgottenExactly(r, config, now, c);
    if sid in r.sessions {
      ForgottenExactly(r, config, now, r.sessions[sid].clientid);
    }
  }

  lemma ForgottenExactly(r: Registry, config: Config, now: int, c: ClientId)
    ensures c in Forgotten(RevokeLeases(r, Expired(r, now), now), config, now) <==> Expendable(r, config, now, c)
  {
    var revoked := RevokeLeases(r, Expired(r, now), now);
    assert HasSession(revoked, c) == HasSession(r, c);
  }

  // ---- EXCHANGE_ID and CREATE_SESSION ----

  /** The owner, with this incarnation's verifier, has a record within its lease. */
  ghost predicate Known(r: Registry, owner: Owner, c: ClientId) {
    c in r.clients && r.clients[c].owner == owner && r.clients[c].lease.Active?
  }

  /** EXCHANGE_ID of a known owner gives its record as it stands, and changes nothing. */
  lemma ExchangeFinds(r: Registry, config: Config, now: int, owner: Owner, c: ClientId)
    requires Inv(r) && Known(r, owner, c)
    ensures ExchangeReaped(r, config, now, owner) == (Exchange(c, r.clients[c].sequenceId, r.clients[c].confirmed), {}, r)
  {
    assert Matches(r, owner, c);
    var d :| Matches(r, owner, d) && ExchangeReaped(r, config, now, owner).0.clientid == d;
    MatchUnique(r, owner, c, d);
  }

  /** An unconfirmed record of an earlier incarnation of the owner. */
  predicate Leftover(r: Registry, owner: Owner, c: ClientId) {
    && c in r.clients && r.clients[c].owner.ownerid == owner.ownerid && r.clients[c].owner.verifier != owner.verifier
    && !r.clients[c].confirmed
  }

  /**
    EXCHANGE_ID of an unknown owner gives a new record, unconfirmed and with a lease, in place of the
    owner's leftovers; it remembers the owner's confirmed record; nobody else's changes.
   */
  lemma ExchangeAdds(r: Registry, config: Config, now: int, owner: Owner, c: ClientId)
    requires Inv(r) && forall x :: !Known(r, owner, x)
    ensures var (e, lost, r') := ExchangeReaped(r, config, now, owner);
            && e == Exchange(r.next, 1, false) && r.next !in r.clients && r'.next == r.next + 1 && r'.issued == r.issued
            && r.next in r'.clients && r'.clients[r.next].(replaced := None) == Client(owner, false, 1, None, Active(now + config.lease))
            && (c in lost <==> Leftover(r, owner, c))
            && (c in r.clients && !Leftover(r, owner, c) ==> c in r'.clients && r'.clients[c] == r.clients[c])
            && (c in r'.clients && c != r.next ==> c in r.clients && !Leftover(r, owner, c))
            && (c in r.clients && r.clients[c].owner.ownerid == owner.ownerid && r.clients[c].confirmed ==>
                  r'.clients[r.next].replaced == Some(c))
            && r'.sessions == r.sessions
  {
    var r' := ExchangeReaped(r, config, now, owner).2;
    assert r.next in r.clients ==> ClientOk(r, r.next);
    assert !exists x :: Matches(r, owner, x) by {
      assert forall x :: Matches(r, owner, x) ==> Known(r, owner, x);
    }
    LeftoverIsStale(r, owner, c);
    LeftoversHaveNoSessions(r, owner);
    if c in r.clients && r.clients[c].owner.ownerid == owner.ownerid && r.clients[c].confirmed {
      ConfirmedIsReplaced(r, owner, c);
    }
  }

  lemma LeftoverIsStale(r: Registry, owner: Owner, c: ClientId)
    requires Inv(r)
    ensures Leftover(r, owner, c) <==> StaleUnconfirmed(r, owner, c)
  {
    if c in r.clients {
      assert ClientOk(r, c);
    }
  }

  lemma LeftoversHaveNoSessions(r: Registry, owner: Owner)
    requires Inv(r)
    ensures DropRecords(r, set c | c in r.clients && StaleUnconfirmed(r, owner, c)).sessions == r.sessions
  {
    forall sid | sid in r.sessions
      ensures !StaleUnconfirmed(r, owner, r.sessions[sid].clientid)
    {
      assert SessionOk(r, sid);
      assert ClientOk(r, r.sessions[sid].clientid);
      assert HasSession(r, r.sessions[sid].clientid);
    }
  }

  lemma ConfirmedIsReplaced(r: Registry, owner: Owner, c: ClientId)
    requires Inv(r) && (forall x :: !Known(r, owner, x))
    requires c in r.clients && r.clients[c].owner.ownerid == owner.ownerid && r.clients[c].confirmed
    ensures Replaced(r, owner) == Some(c)
  {
    assert !Known(r, owner, c);
    assert Restarts(r, owner, c) || Lapsed(r, owner, c);
    var p := Replaced(r, owner).value;
    assert ClientOk(r, p) && PairOk(r, c, p) && PairOk(r, p, c);
  }

  /** CREATE_SESSION succeeds exactly for a record within its lease, at its sequence id. */
  lemma CreateAnswers(r: Registry, config: Config, now: int, c: ClientId, seqid: nat, maxRequests: nat, connection: nat, back: bool)
    ensures var (res, lost, r') := CreateReaped(r, config, now, c, seqid, maxRequests, connection, back);
            var active := c in r.clients && r.clients[c].lease.Active?;
            && (res == Success(SessionId(c, seqid + 1)) <==> active && seqid == r.clients[c].sequenceId)
            && (res == Failure(SeqMisordered) <==> active && seqid != r.clients[c].sequenceId)
            && (res == Failure(StaleClientid) <==> !active)
            && (res.Failure? ==> lost == {} && r' == r)
  {
  }

  /**
    It confirms the record, renews its lease and moves its sequence id on; it makes one session, with
    as many slots as asked for but at least one and at most 64, bound to the connection.
   */
  lemma CreateMakes(r: Registry, config: Config, now: int, c: ClientId, maxRequests: nat, connection: nat, back: bool, x: ClientId, sid: SessionId)
    requires Inv(r) && c in r.clients && r.clients[c].lease.Active?
    ensures var n := r.clients[c].sequenceId;
            var (res, lost, r') := CreateReaped(r, config, now, c, n, maxRequests, connection, back);
            var made := SessionId(c, n + 1);
            && c in r'.clients && r'.clients[c] == Client(r.clients[c].owner, true, n + 1, None, Active(now + config.lease))
            && made !in r.issued && made in r'.sessions && r'.issued == r.issued + {made} && r'.next == r.next
            && r'.sessions[made].clientid == c && r'.sessions[made].fore == {connection}
            && r'.sessions[made].back == (if back then {connection} else {})
            && |r'.sessions[made].slots| == (if maxRequests == 0 then 1 else if maxRequests > 64 then 64 else maxRequests)
            && (forall k | 0 <= k < |r'.sessions[made].slots| :: r'.sessions[made].slots[k] == Sequence.Slot(1, None, None))
            && (x in lost <==> r.clients[c].replaced == Some(x))
            && (x != c && x !in lost ==> (x in r'.clients <==> x in r.clients) && (x in r.clients ==> r'.clients[x] == r.clients[x]))
            && (x in lost ==> x !in r'.clients)
            && (sid != made ==> (sid in r'.sessions <==> sid in r.sessions && r.sessions[sid].clientid !in lost))
            && (sid != made && sid in r'.sessions ==> r'.sessions[sid] == r.sessions[sid])
  {
    assert ClientOk(r, c);
    assert SessionId(c, r.clients[c].sequenceId + 1) in r.issued ==> IssuedOk(r, SessionId(c, r.clients[c].sequenceId + 1));
  }

  // ---- Ending ----

  /** DESTROY_SESSION succeeds exactly on a session the connection is bound to, and ends that one only. */
  lemma DestroyEnds(r: Registry, sid: SessionId, connection: nat)
    ensures var (status, r') := DestroySessionReaped(r, sid, connection);
            && (status == Ok <==> sid in r.sessions && (connection in r.sessions[sid].fore || connection in r.sessions[sid].back))
            && (status == BadSession <==> sid !in r.sessions)
            && (status == ConnNotBoundToSession <==> sid in r.sessions && connection !in r.sessions[sid].fore + r.sessions[sid].back)
            && (if status == Ok then r'.sessions == r.sessions - {sid} && r' == r.(sessions := r'.sessions) else r' == r)
  {
  }

  /** A connection that closes is bound to no session any more, so it can end none; every other binding stays. */
  lemma UnbindLeaves(r: Registry, connection: nat, sid: SessionId, other: nat)
    ensures var r' := Unbind(r, connection);
            && r' == r.(sessions := r'.sessions) && r'.sessions.Keys == r.sessions.Keys
            && DestroySessionReaped(r', sid, connection).0 != Ok
            && (sid in r.sessions ==>
                  && r'.sessions[sid].clientid == r.sessions[sid].clientid && r'.sessions[sid].slots == r.sessions[sid].slots
                  && (other in r'.sessions[sid].fore <==> other in r.sessions[sid].fore && other != connection)
                  && (other in r'.sessions[sid].back <==> other in r.sessions[sid].back && other != connection))
  {
  }

  /** DESTROY_CLIENTID is refused exactly while a session or state is left; otherwise the record goes, if there is one. */
  lemma DestroyClientEnds(r: Registry, c: ClientId, holdsState: bool, x: ClientId)
    requires Inv(r)
    ensures var (status, lost, r') := DestroyClientReaped(r, c, holdsState);
            var busy := holdsState || exists sid | sid in r.sessions :: r.sessions[sid].clientid == c;
            && (status == ClientidBusy <==> busy) && (status == Ok <==> !busy && c in r.clients)
            && (status == StaleClientid <==> !busy && c !in r.clients)
            && (if busy then lost == {} && r' == r else lost == {c} && c !in r'.clients && r'.sessions == r.sessions)
            && (x != c ==> (x in r'.clients <==> x in r.clients) && (x in r.clients ==> r'.clients[x] == r.clients[x]))
  {
  }

  // ---- SEQUENCE ----

  /** The slot may be used: the session and the slot exist, and the connection is not of the back channel alone. */
  predicate MayUse(r: Registry, sid: SessionId, slotid: nat, connection: nat) {
    && sid in r.sessions && slotid < |r.sessions[sid].slots|
    && (connection in r.sessions[sid].back ==> connection in r.sessions[sid].fore)
  }

  /** What SEQUENCE answers: refused, status only for a revoked lease, or as the slot decides. */
  lemma PrepareAnswers(r: Registry, config: Config, now: int, sid: SessionId, slotid: nat, seqid: Sequence.SequenceId,
                       fingerprint: Bytes, connection: nat)
    requires Inv(r)
    ensures var answer := PrepareReaped(r, config, now, sid, slotid, seqid, fingerprint, connection).0;
            && (sid !in r.sessions ==> answer == Answered(Sequence.Error(BadSession)))
            && (sid in r.sessions && slotid >= |r.sessions[sid].slots| ==> answer == Answered(Sequence.Error(BadSlot)))
            && (sid in r.sessions && slotid < |r.sessions[sid].slots| && !MayUse(r, sid, slotid, connection) ==>
                  answer == Answered(Sequence.Error(ConnNotBoundToSession)))
            && (MayUse(r, sid, slotid, connection) ==>
                  && r.sessions[sid].clientid in r.clients
                  && (answer == StatusOnly <==> r.clients[r.sessions[sid].clientid].lease.Revoked?)
                  && (answer != StatusOnly ==>
                        answer == Answered(Sequence.Prepare(r.sessions[sid].slots[slotid], seqid, fingerprint).0)))
  {
    assert sid in r.sessions ==> SessionOk(r, sid);
  }

  /** SEQUENCE binds the connection, moves one slot and, if it executes or replays, renews the lease; nothing else changes. */
  lemma PrepareLeaves(r: Registry, config: Config, now: int, sid: SessionId, slotid: nat, seqid: Sequence.SequenceId,
                      fingerprint: Bytes, connection: nat, c: ClientId, x: SessionId, k: nat)
    requires Inv(r)
    ensures var (answer, r') := PrepareReaped(r, config, now, sid, slotid, seqid, fingerprint, connection);
            && r'.next == r.next && r'.issued == r.issued && r'.clients.Keys == r.clients.Keys && r'.sessions.Keys == r.sessions.Keys
            && (!MayUse(r, sid, slotid, connection) ==> r' == r)
            && (x in r.sessions && x != sid ==> r'.sessions[x] == r.sessions[x])
            && (MayUse(r, sid, slotid, connection) ==>
                  && r'.sessions[sid].clientid == r.sessions[sid].clientid && r'.sessions[sid].back == r.sessions[sid].back
                  && r'.sessions[sid].fore == r.sessions[sid].fore + {connection}
                  && |r'.sessions[sid].slots| == |r.sessions[sid].slots|
                  && (k < |r.sessions[sid].slots| && (k != slotid || answer == StatusOnly) ==>
                        r'.sessions[sid].slots[k] == r.sessions[sid].slots[k]))
            && (c in r.clients ==>
                  r'.clients[c] == if sid in r.sessions && r.sessions[sid].clientid == c && Served(answer)
                                   then r.clients[c].(lease := Active(now + config.lease)) else r.clients[c])
  {
    assert sid in r.sessions ==> SessionOk(r, sid);
  }

  /** The answer is to execute the request, or the reply it had. */
  predicate Served(answer: SequenceAnswer) {
    answer.Answered? && (answer.answer.Execute? || answer.answer.Replay?)
  }

  // ---- Leases over runs ----

  /** The step renews c's lease: a SEQUENCE of its that executes or replays, or its CREATE_SESSION. */
  ghost predicate Renews(r: Registry, config: Config, now: int, a: Action, c: ClientId) {
    var reaped := Reap(r, config, now).1;
    || (a.Preparing? && a.sid in reaped.sessions && reaped.sessions[a.sid].clientid == c
        && Served(PrepareReaped(reaped, config, now, a.sid, a.slotid, a.requested, a.fingerprint, a.connection).0))
    || (a.Creating? && a.clientid == c
        && CreateReaped(reaped, config, now, a.clientid, a.seqid, a.maxRequests, a.connection, a.back).0.Success?)
  }

  /** The step ends c on purpose: its own DESTROY_CLIENTID, or a newer record of its owner confirmed. */
  ghost predicate Ends(r: Registry, config: Config, now: int, a: Action, c: ClientId) {
    (a.EndingClient? && a.c == c) || (c in r.clients && Supersedes(r, config, now, a, c))
  }

  /** Within its lease and confirmed, with this deadline. */
  predicate Holding(r: Registry, c: ClientId, deadline: int) {
    c in r.clients && r.clients[c].confirmed && r.clients[c].lease == Active(deadline)
  }

  function NextDeadline(config: Config, now: int, renews: bool, deadline: int): int {
    if renews then now + config.lease else deadline
  }

  /** A step before the deadline keeps the client, and its deadline moves exactly when the step renews it. */
  lemma StepHolds(r: Registry, config: Config, now: int, a: Action, c: ClientId, deadline: int)
    requires Inv(r) && Holding(r, c, deadline) && (a.Reaps() ==> now < deadline) && !Ends(r, config, now, a, c)
    ensures var (lost, r') := Step(r, config, now, a);
            c !in lost && Holding(r', c, NextDeadline(config, now, Renews(r, config, now, a, c), deadline))
  {
    if a.Reaps() {
      ConfirmedSurvives(r, config, now, a, c);
      ReapKeeps(r, config, now);
      ReapLoses(r, config, now, c);
      AfterDeadline(Reap(r, config, now).1, config, now, a, c);
    }
  }

  /** A step that expires leases, at the deadline or later, takes the client's state. */
  lemma LateIsLost(r: Registry, config: Config, now: int, a: Action, c: ClientId, deadline: int)
    requires Holding(r, c, deadline) && a.Reaps() && deadline <= now
    ensures c in Step(r, config, now, a).0
  {
    assert c in Expired(r, now);
  }

  lemma AfterDeadline(r: Registry, config: Config, now: int, a: Action, c: ClientId)
    requires Inv(r) && c in r.clients && r.clients[c].confirmed && r.clients[c].lease.Active? && a.Reaps()
    ensures var r' := After(r, config, now, a).1;
            c in r'.clients ==>
              r'.clients[c].lease ==
                if (a.Preparing? && a.sid in r.sessions && r.sessions[a.sid].clientid == c
                    && Served(PrepareReaped(r, config, now, a.sid, a.slotid, a.requested, a.fingerprint, a.connection).0))
                   || (a.Creating? && a.clientid == c
                       && CreateReaped(r, config, now, a.clientid, a.seqid, a.maxRequests, a.connection, a.back).0.Success?)
                then Active(now + config.lease) else r.clients[c].lease
  {
    if a.Preparing? {
      PrepareLeaves(r, config, now, a.sid, a.slotid, a.requested, a.fingerprint, a.connection, c, a.sid, 0);
    } else if a.Exchanging? {
      ExchangeSpares(r, config, now, a.owner, c);
    }
  }

  /** Every step that expires leases comes before the deadline that the client's latest renewal set. */
  ghost predicate InTime(r: Registry, config: Config, actions: seq<(int, Action)>, c: ClientId, deadline: int)
    decreases |actions|
  {
    actions == []
    || (var (now, a) := actions[0];
        && (a.Reaps() ==> now < deadline)
        && InTime(Step(r, config, now, a).1, config, actions[1..], c, NextDeadline(config, now, Renews(r, config, now, a, c), deadline)))
  }

  ghost predicate NoneEnds(r: Registry, config: Config, actions: seq<(int, Action)>, c: ClientId)
    decreases |actions|
  {
    actions == []
    || (var (now, a) := actions[0];
        !Ends(r, config, now, a, c) && NoneEnds(Step(r, config, now, a).1, config, actions[1..], c))
  }

  /** No step of the run takes c's state. */
  ghost predicate Spared(r: Registry, config: Config, actions: seq<(int, Action)>, c: ClientId)
    decreases |actions|
  {
    actions == []
    || (var (now, a) := actions[0];
        c !in Step(r, config, now, a).0 && Spared(Step(r, config, now, a).1, config, actions[1..], c))
  }

  /**
    Through every run that does not end the client on purpose, it keeps its state if and only if it
    renews its lease in time: whenever leases are expired, its latest SEQUENCE that was executed or
    replayed, or its latest CREATE_SESSION, is less than a lease ago.
   */
  lemma {:induction false} SparedIffInTime(r: Registry, config: Config, actions: seq<(int, Action)>, c: ClientId, deadline: int)
    requires Inv(r) && Holding(r, c, deadline) && NoneEnds(r, config, actions, c)
    ensures Spared(r, config, actions, c) <==> InTime(r, config, actions, c, deadline)
    decreases |actions|
  {
    if actions != [] {
      var (now, a) := actions[0];
      if a.Reaps() && deadline <= now {
        LateIsLost(r, config, now, a, c, deadline);
      } else {
        StepKeepsInv(r, config, now, a);
        StepHolds(r, config, now, a, c, deadline);
        SparedIffInTime(Step(r, config, now, a).1, config, actions[1..], c, NextDeadline(config, now, Renews(r, config, now, a, c), deadline));
      }
    }
  }

  /** And then its record is there at the end, within its lease. */
  lemma {:induction false} InTimeStays(r: Registry, config: Config, actions: seq<(int, Action)>, c: ClientId, deadline: int)
    requires Inv(r) && Holding(r, c, deadline) && NoneEnds(r, config, actions, c) && InTime(r, config, actions, c, deadline)
    ensures var r' := Run(r, config, actions); c in r'.clients && r'.clients[c].confirmed && r'.clients[c].lease.Active?
    decreases |actions|
  {
    if actions != [] {
      var (now, a) := actions[0];
      StepKeepsInv(r, config, now, a);
      StepHolds(r, config, now, a, c, deadline);
      InTimeStays(Step(r, config, now, a).1, config, actions[1..], c, NextDeadline(config, now, Renews(r, config, now, a, c), deadline));
    }
  }
}
