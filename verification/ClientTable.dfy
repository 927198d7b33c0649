/** Client records and sessions as the server keeps them, searched and updated in place. */
module ClientTable {
  import opened NfsTypes
  import opened Clients
  import Sequence

  // ---- Loops over the records, as sets ----

  lemma DropNone(r: Registry)
    ensures DropRecords(r, {}) == r
  {
  }

  lemma DropMore(r: Registry, gone: set<ClientId>, c: ClientId)
    ensures DropRecords(DropRecords(r, gone), {c}) == DropRecords(r, gone + {c})
  {
    assert r.clients - gone - {c} == r.clients - (gone + {c});
  }

  lemma RevokeMore(r: Registry, done: set<ClientId>, c: ClientId, now: int)
    requires c in r.clients && c !in done
    ensures var mid := RevokeLeases(r, done, now);
            RevokeLeases(r, done + {c}, now).clients == mid.clients[c := mid.clients[c].(lease := Revoked(now))]
  {
  }

  class ClientTable {
    const config: Config
    var clients: map<ClientId, Client>
    var sessions: map<SessionId, Session>
    var next: ClientId
    ghost var issued: set<SessionId>

    ghost function State(): Registry
      reads this
    {
      Registry(clients, sessions, next, issued)
    }

    constructor (config: Config)
      ensures Inv(State()) && State() == START && this.config == config
    {
      this.config := config;
      clients, sessions, next, issued := map[], map[], 1, {};
    }

    /** Forget one record and its sessions; false when there is no such record. */
    method DropClientState(c: ClientId) returns (found: bool)
      modifies this`clients, this`sessions
      ensures State() == DropRecords(old(State()), {c}) && found == (c in old(clients))
    {
      sessions := map sid | sid in sessions && sessions[sid].clientid != c :: sessions[sid];
      found := c in clients;
      clients := clients - {c};
    }

    method DropEach(gone: set<ClientId>)
      modifies this`clients, this`sessions
      ensures State() == DropRecords(old(State()), gone)
    {
      ghost var r := State();
      DropNone(r);
      var left := gone;
      while left != {}
        invariant left <= gone && State() == DropRecords(r, gone - left)
        decreases left
      {
        var c :| c in left;
        left := left - {c};
        var _ := DropClientState(c);
        DropMore(r, gone - left - {c}, c);
        assert gone - left == (gone - left - {c}) + {c};
      }
      assert gone - left == gone;
    }

    method AnySession(c: ClientId) returns (any: bool)
      ensures any == HasSession(State(), c)
    {
      var left := sessions.Keys;
      while left != {}
        invariant left <= sessions.Keys && forall sid | sid in sessions.Keys - left :: sessions[sid].clientid != c
        decreases left
      {
        var sid :| sid in left;
        left := left - {sid};
        if sessions[sid].clientid == c {
          return true;
        }
      }
      return false;
    }

    // ---- Expiry ----

    method RevokeEach(expired: set<ClientId>, now: int)
      requires expired <= clients.Keys
      modifies this`clients
      ensures State() == RevokeLeases(old(State()), expired, now)
    {
      ghost var r := State();
      assert RevokeLeases(r, {}, now).clients == r.clients;
      var left := expired;
      while left != {}
        invariant left <= expired && clients == RevokeLeases(r, expired - left, now).clients
        decreases left
      {
        var c :| c in left;
        left := left - {c};
        RevokeMore(r, expired - left - {c}, c, now);
        clients := clients[c := clients[c].(lease := Revoked(now))];
        assert expired - left == (expired - left - {c}) + {c};
      }
      assert expired - left == expired;
    }

    method Forgettables(now: int) returns (gone: set<ClientId>)
      ensures gone == Forgotten(State(), config, now)
    {
      gone := {};
      var left := clients.Keys;
      while left != {}
        invariant left <= clients.Keys
        invariant gone == set c | c in clients.Keys - left && Forgettable(State(), config, now, c)
        decreases left
      {
        var c :| c in left;
        left := left - {c};
        var lease := clients[c].lease;
        var any := AnySession(c);
        if lease.Revoked? && ((if now < lease.since then 0 else now - lease.since) >= config.retention || !any) {
          gone := gone + {c};
        }
      }
    }

    /** Revoke the leases that ran out, then forget revoked records; the clients that lose their state. */
    method ReapExpiredClients(now: int) returns (lost: set<ClientId>)
      modifies this`clients, this`sessions
      ensures (lost, State()) == Reap(old(State()), config, now)
    {
      var expired := set c | c in clients && clients[c].lease.Active? && now >= clients[c].lease.deadline;
      RevokeEach(expired, now);
      var gone := Forgettables(now);
      DropEach(gone);
      lost := expired + gone;
    }

    // ---- EXCHANGE_ID ----

    method FindMatch(owner: Owner) returns (found: Option<ClientId>)
      ensures match found case Some(c) => Matches(State(), owner, c) case None => forall c :: !Matches(State(), owner, c)
    {
      var left := clients.Keys;
      while left != {}
        invariant left <= clients.Keys && forall c | c in clients.Keys - left :: !Matches(State(), owner, c)
        decreases left
      {
        var c :| c in left;
        left := left - {c};
        if clients[c].owner == owner && clients[c].lease.Active? {
          return Some(c);
        }
      }
      assert forall c :: c !in clients ==> !Matches(State(), owner, c);
      return None;
    }

    /** A confirmed or revoked record of another instance first, then a revoked record of this one. */
    method FindReplaced(owner: Owner) returns (found: Option<ClientId>)
      requires Inv(State())
      ensures found == Replaced(State(), owner)
    {
      var lapsed: Option<ClientId> := None;
      var left := clients.Keys;
      while left != {}
        invariant left <= clients.Keys && forall c | c in clients.Keys - left :: !Restarts(State(), owner, c)
        invariant lapsed.None? ==> forall c | c in clients.Keys - left :: !Lapsed(State(), owner, c)
        invariant lapsed.Some? ==> Lapsed(State(), owner, lapsed.value)
        decreases left
      {
        var c :| c in left;
        left := left - {c};
        var client := clients[c];
        if client.owner.ownerid == owner.ownerid && client.owner.verifier != owner.verifier
           && (client.confirmed || client.lease.Revoked?) {
          ReplacedIs(State(), owner, c);
          return Some(c);
        }
        if client.owner == owner && client.lease.Revoked? {
          lapsed := Some(c);
        }
      }
      assert forall c :: !Restarts(State(), owner, c);
      if lapsed.Some? {
        ReplacedIs(State(), owner, lapsed.value);
      }
      return lapsed;
    }

    method ExchangeIdOp(now: int, owner: Owner, unprotected: bool) returns (r: Result<Exchange>, lost: set<ClientId>)
      requires Inv(State())
      modifies this
      ensures Inv(State()) && (r, lost, State()) == ExchangeId(old(State()), config, now, owner, unprotected)
    {
      if !unprotected {
        return Failure(Inval), {};
      }
      ReapKeeps(State(), config, now);
      lost := ReapExpiredClients(now);
      ExchangeKeeps(State(), config, now, owner);
      var res, more := FindOrAdd(now, owner);
      return Success(res), lost + more;
    }

    method FindOrAdd(now: int, owner: Owner) returns (res: Exchange, lost: set<ClientId>)
      requires Inv(State())
      modifies this
      ensures (res, lost, State()) == ExchangeReaped(old(State()), config, now, owner)
    {
      var found := FindMatch(owner);
      if found.Some? {
        var c := found.value;
        MatchIs(State(), config, now, owner, c);
        return Exchange(c, clients[c].sequenceId, clients[c].confirmed), {};
      }
      var replaced := FindReplaced(owner);
      lost := set c | c in clients && clients[c].owner.ownerid == owner.ownerid && clients[c].owner.verifier != owner.verifier
                      && !clients[c].confirmed && clients[c].lease.Active?;
      ghost var r := State();
      assert lost == set c | c in r.clients && StaleUnconfirmed(r, owner, c);
      DropEach(lost);
      var id := next;
      next := next + 1;
      clients := clients[id := Client(owner, false, 1, replaced, Active(now + config.lease))];
      res := Exchange(id, 1, false);
    }

    // ---- CREATE_SESSION ----

    method CreateSessionOp(now: int, clientid: ClientId, seqid: nat, maxRequests: nat, connection: nat, back: bool)
      returns (r: Result<SessionId>, lost: set<ClientId>)
      requires Inv(State())
      modifies this
      ensures Inv(State())
      ensures (r, lost, State()) == CreateSession(old(State()), config, now, clientid, seqid, maxRequests, connection, back)
    {
      ReapKeeps(State(), config, now);
      lost := ReapExpiredClients(now);
      CreateKeeps(State(), config, now, clientid, seqid, maxRequests, connection, back);
      var res, more := ConfirmAndOpen(now, clientid, seqid, maxRequests, connection, back);
      return res, lost + more;
    }

    /** Confirm the record, drop the one it replaces, and open a session numbered by the record's sequence id. */
    method ConfirmAndOpen(now: int, clientid: ClientId, seqid: nat, maxRequests: nat, connection: nat, back: bool)
      returns (r: Result<SessionId>, lost: set<ClientId>)
      modifies this
      ensures (r, lost, State()) == CreateReaped(old(State()), config, now, clientid, seqid, maxRequests, connection, back)
    {
      if clientid !in clients || clients[clientid].lease.Revoked? {
        return Failure(StaleClientid), {};
      }
      var client := clients[clientid];
      if seqid != client.sequenceId {
        return Failure(SeqMisordered), {};
      }
      clients := clients[clientid := Client(client.owner, true, client.sequenceId + 1, None, Active(now + config.lease))];
      lost := {};
      ghost var r' := State();
      DropNone(r');
      if client.replaced.Some? {
        var _ := DropClientState(client.replaced.value);
        lost := {client.replaced.value};
      }
      var sid := SessionId(clientid, client.sequenceId + 1);
      sessions := sessions[sid := NewSession(clientid, maxRequests, connection, back)];
      issued := issued + {sid};
      r := Success(sid);
    }

    // ---- DESTROY_SESSION, DESTROY_CLIENTID ----

    method DestroySession(now: int, sid: SessionId, connection: nat) returns (status: Status, lost: set<ClientId>)
      requires Inv(State())
      modifies this
      ensures Inv(State())
      ensures var (gone, reaped) := Reap(old(State()), config, now);
              lost == gone && (status, State()) == DestroySessionReaped(reaped, sid, connection)
    {
      ReapKeeps(State(), config, now);
      lost := ReapExpiredClients(now);
      DestroyKeeps(State(), sid, connection);
      if sid !in sessions {
        return BadSession, lost;
      }
      if connection !in sessions[sid].fore && connection !in sessions[sid].back {
        return ConnNotBoundToSession, lost;
      }
      sessions := sessions - {sid};
      return Ok, lost;
    }

    method RemoveConnection(connection: nat)
      requires Inv(State())
      modifies this
      ensures Inv(State()) && State() == Unbind(old(State()), connection)
    {
      UnbindKeeps(State(), connection);
      UnbindAll(connection);
    }

    method UnbindAll(connection: nat)
      modifies this`sessions
      ensures State() == Unbind(old(State()), connection)
    {
      ghost var r := State();
      var left := sessions.Keys;
      while left != {}
        invariant left <= sessions.Keys == r.sessions.Keys && State() == r.(sessions := sessions)
        invariant forall sid | sid in sessions ::
                    sessions[sid] == if sid in left then r.sessions[sid] else Unbound(r.sessions[sid], connection)
        decreases left
      {
        var sid :| sid in left;
        left := left - {sid};
        sessions := sessions[sid := Unbound(sessions[sid], connection)];
      }
    }

    method DestroyClientid(now: int, c: ClientId, holdsState: bool) returns (status: Status, lost: set<ClientId>)
      requires Inv(State())
      modifies this
      ensures Inv(State())
      ensures var (gone, reaped) := Reap(old(State()), config, now);
              var (s, more, r') := DestroyClientReaped(reaped, c, holdsState);
              status == s && lost == gone + more && State() == r'
    {
      ReapKeeps(State(), config, now);
      lost := ReapExpiredClients(now);
      DropKeeps(State(), {c});
      var any := AnySession(c);
      if any || holdsState {
        return ClientidBusy, lost;
      }
      var found := DropClientState(c);
      return if found then Ok else StaleClientid, lost + {c};
    }

    // ---- SEQUENCE ----

    method PrepareSequence(now: int, sid: SessionId, slotid: nat, seqid: Sequence.SequenceId, fingerprint: Bytes, connection: nat)
      returns (answer: SequenceAnswer, lost: set<ClientId>)
      requires Inv(State())
      modifies this
      ensures Inv(State())
      ensures var (gone, reaped) := Reap(old(State()), config, now);
              lost == gone && (answer, State()) == PrepareReaped(reaped, config, now, sid, slotid, seqid, fingerprint, connection)
    {
      ReapKeeps(State(), config, now);
      lost := ReapExpiredClients(now);
      PrepareKeeps(State(), config, now, sid, slotid, seqid, fingerprint, connection);
      answer := ServeSlot(now, sid, slotid, seqid, fingerprint, connection);
    }

    method ServeSlot(now: int, sid: SessionId, slotid: nat, seqid: Sequence.SequenceId, fingerprint: Bytes, connection: nat)
      returns (answer: SequenceAnswer)
      modifies this
      ensures (answer, State()) == PrepareReaped(old(State()), config, now, sid, slotid, seqid, fingerprint, connection)
    {
      if sid !in sessions {
        return Answered(Sequence.Error(BadSession));
      }
      var session := sessions[sid];
      if slotid >= |session.slots| {
        return Answered(Sequence.Error(BadSlot));
      }
      if session.clientid !in clients {
        return Answered(Sequence.Error(BadSession));
      }
      if connection in session.back && connection !in session.fore {
        return Answered(Sequence.Error(ConnNotBoundToSession));
      }
      session := session.(fore := session.fore + {connection});
      if clients[session.clientid].lease.Revoked? {
        sessions := sessions[sid := session];
        return StatusOnly;
      }
      var replay, slot := NextSlot(session.slots[slotid], seqid, fingerprint);
      sessions := sessions[sid := session.(slots := session.slots[slotid := slot])];
      if !replay.Error? {
        clients := clients[session.clientid := clients[session.clientid].(lease := Active(now + config.lease))];
      }
      return Answered(replay);
    }

    /** Execute, replay, or refuse, by comparing with the slot's next and previous sequence ids. */
    method NextSlot(slot: Sequence.Slot, seqid: Sequence.SequenceId, fingerprint: Bytes)
      returns (answer: Sequence.Answer, after: Sequence.Slot)
      ensures (answer, after) == Sequence.Prepare(slot, seqid, fingerprint)
    {
      var retry := (slot.sequenceId - 1) % Sequence.WRAP;
      if seqid == slot.sequenceId {
        after := slot.(sequenceId := (slot.sequenceId + 1) % Sequence.WRAP, inProgress := Some(fingerprint), cached := None);
        return Sequence.Execute, after;
      }
      if seqid != retry {
        return Sequence.Error(SeqMisordered), slot;
      }
      if slot.inProgress.Some? {
        if slot.inProgress.value == fingerprint {
          return Sequence.Error(Delay), slot;
        }
        return Sequence.Error(SeqFalseRetry), slot;
      }
      if slot.cached.Some? {
        if slot.cached.value.fingerprint == fingerprint {
          return Sequence.Replay(slot.cached.value.response), slot;
        }
        return Sequence.Error(SeqFalseRetry), slot;
      }
      return Sequence.Error(Serverfault), slot;
    }

    method FinishSequenceOp(sid: SessionId, slotid: nat, fingerprint: Bytes, response: Bytes) returns (status: Status)
      requires Inv(State())
      modifies this
      ensures Inv(State()) && (status, State()) == FinishSequence(old(State()), sid, slotid, fingerprint, response)
    {
      FinishKeeps(State(), sid, slotid, fingerprint, response);
      if sid !in sessions {
        return BadSession;
      }
      var session := sessions[sid];
      if slotid >= |session.slots| {
        return BadSlot;
      }
      var slot := session.slots[slotid].(inProgress := None, cached := Some(Sequence.Cached(fingerprint, response)));
      sessions := sessions[sid := session.(slots := session.slots[slotid := slot])];
      return Ok;
    }
  }

  lemma ReplacedIs(r: Registry, owner: Owner, c: ClientId)
    requires Inv(r) && (Restarts(r, owner, c) || Lapsed(r, owner, c))
    ensures Replaced(r, owner) == Some(c)
  {
    var other := Replaced(r, owner);
    MatchUnique(r, owner, c, other.value);
  }

  lemma MatchIs(r: Registry, config: Config, now: int, owner: Owner, c: ClientId)
    requires Inv(r) && Matches(r, owner, c)
    ensures ExchangeReaped(r, config, now, owner) == (Exchange(c, r.clients[c].sequenceId, r.clients[c].confirmed), {}, r)
  {
    var other := ExchangeReaped(r, config, now, owner).0.clientid;
    assert Matches(r, owner, other);
    MatchUnique(r, owner, c, other);
  }
}
