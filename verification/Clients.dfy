/**
  Client records and sessions: EXCHANGE_ID, CREATE_SESSION, DESTROY_SESSION, DESTROY_CLIENTID,
  SEQUENCE, and the expiry of leases. Each operation also says whose opens, locks and
  delegations are lost.
 */
module Clients {
  import opened NfsTypes
  import Sequence

  datatype Owner = Owner(ownerid: Bytes, verifier: nat)

  datatype Lease = Active(deadline: int) | Revoked(since: int)

  datatype Client = Client(owner: Owner, confirmed: bool, sequenceId: nat, replaced: Option<ClientId>, lease: Lease)

  /** The first and the last eight bytes of a session id. */
  datatype SessionId = SessionId(clientid: ClientId, number: nat)

  datatype Session = Session(clientid: ClientId, slots: seq<Sequence.Slot>, fore: set<nat>, back: set<nat>)

  /** `issued` is the history of session ids; no operation reads it. */
  datatype Registry = Registry(
    clients: map<ClientId, Client>,
    sessions: map<SessionId, Session>,
    next: ClientId,
    issued: set<SessionId>)

  datatype Config = Config(lease: nat, retention: nat)

  const MAX_FORE_CHAN_SLOTS: nat := 64

  // ---- The invariant ----

  ghost predicate HasSession(r: Registry, c: ClientId) {
    exists sid | sid in r.sessions :: r.sessions[sid].clientid == c
  }

  ghost predicate ClientOk(r: Registry, c: ClientId)
    requires c in r.clients
  {
    && c < r.next
    && (r.clients[c].confirmed ==> r.clients[c].replaced == None)
    && (!r.clients[c].confirmed ==> r.clients[c].lease.Active? && !HasSession(r, c))
    && (r.clients[c].replaced.Some? ==> ReplacesOk(r, c, r.clients[c].replaced.value))
  }

  /** The record c would replace is older, and while it exists it is its owner's confirmed record. */
  ghost predicate ReplacesOk(r: Registry, c: ClientId, x: ClientId)
    requires c in r.clients
  {
    x < c && (x in r.clients ==> r.clients[x].confirmed && r.clients[x].owner.ownerid == r.clients[c].owner.ownerid)
  }

  /** Two records of one owner: one confirmed, one not, and the new one replaces the old one. */
  ghost predicate PairOk(r: Registry, a: ClientId, b: ClientId)
    requires a in r.clients && b in r.clients
  {
    r.clients[a].owner.ownerid == r.clients[b].owner.ownerid && a < b ==>
      && r.clients[a].confirmed && !r.clients[b].confirmed
      && r.clients[b].replaced == Some(a)
      && (r.clients[a].lease.Active? ==> r.clients[a].owner.verifier != r.clients[b].owner.verifier)
  }

  ghost predicate SessionOk(r: Registry, sid: SessionId)
    requires sid in r.sessions
  {
    && r.sessions[sid].clientid == sid.clientid && sid.clientid in r.clients
    && sid in r.issued && r.sessions[sid].slots != []
  }

  ghost predicate IssuedOk(r: Registry, sid: SessionId) {
    sid.clientid < r.next && (sid.clientid in r.clients ==> sid.number <= r.clients[sid.clientid].sequenceId)
  }

  ghost predicate Inv(r: Registry) {
    && (forall c | c in r.clients :: ClientOk(r, c))
    && (forall a, b | a in r.clients && b in r.clients :: PairOk(r, a, b))
    && (forall sid | sid in r.sessions :: SessionOk(r, sid))
    && (forall sid | sid in r.issued :: IssuedOk(r, sid))
  }

  // ---- Leases ----

  /** Drop records and their sessions. */
  function DropRecords(r: Registry, gone: set<ClientId>): Registry {
    r.(clients := r.clients - gone,
       sessions := map sid | sid in r.sessions && r.sessions[sid].clientid !in gone :: r.sessions[sid])
  }

  function Expired(r: Registry, now: int): set<ClientId> {
    set c | c in r.clients && r.clients[c].lease.Active? && now >= r.clients[c].lease.deadline
  }

  function RevokeLeases(r: Registry, expired: set<ClientId>, now: int): Registry {
    r.(clients := map c | c in r.clients ::
         if c in expired then r.clients[c].(lease := Revoked(now)) else r.clients[c])
  }

  /** Revoked for long enough, or with no session left to hear of it. */
  ghost predicate Forgettable(r: Registry, config: Config, now: int, c: ClientId)
    requires c in r.clients
  {
    r.clients[c].lease.Revoked?
    && ((if now < r.clients[c].lease.since then 0 else now - r.clients[c].lease.since) >= config.retention || !HasSession(r, c))
  }

  ghost function Forgotten(r: Registry, config: Config, now: int): set<ClientId> {
    set c | c in r.clients && Forgettable(r, config, now, c)
  }

  /** The clients whose state is lost, and the registry after it. */
  ghost function Reap(r: Registry, config: Config, now: int): (set<ClientId>, Registry) {
    var expired := Expired(r, now);
    var revoked := RevokeLeases(r, expired, now);
    var forgotten := Forgotten(revoked, config, now);
    (expired + forgotten, DropRecords(revoked, forgotten))
  }

  // ---- EXCHANGE_ID ----

  predicate Matches(r: Registry, owner: Owner, c: ClientId) {
    c in r.clients && r.clients[c].owner == owner && r.clients[c].lease.Active?
  }

  predicate Restarts(r: Registry, owner: Owner, c: ClientId) {
    && c in r.clients && r.clients[c].owner.ownerid == owner.ownerid && r.clients[c].owner.verifier != owner.verifier
    && (r.clients[c].confirmed || r.clients[c].lease.Revoked?)
  }

  predicate Lapsed(r: Registry, owner: Owner, c: ClientId) {
    c in r.clients && r.clients[c].owner == owner && r.clients[c].lease.Revoked?
  }

  predicate StaleUnconfirmed(r: Registry, owner: Owner, c: ClientId) {
    && c in r.clients && r.clients[c].owner.ownerid == owner.ownerid && r.clients[c].owner.verifier != owner.verifier
    && !r.clients[c].confirmed && r.clients[c].lease.Active?
  }

  /** The record the new one will replace once it is confirmed. */
  ghost function Replaced(r: Registry, owner: Owner): (prior: Option<ClientId>)
    ensures prior.Some? ==> Restarts(r, owner, prior.value) || Lapsed(r, owner, prior.value)
    ensures prior.None? ==> forall c :: !Restarts(r, owner, c) && !Lapsed(r, owner, c)
  {
    if exists c :: Restarts(r, owner, c) then var c :| Restarts(r, owner, c); Some(c)
    else if exists c :: Lapsed(r, owner, c) then var c :| Lapsed(r, owner, c); Some(c)
    else None
  }

  datatype Exchange = Exchange(clientid: ClientId, sequenceId: nat, confirmed: bool)

  /** Once expired leases are gone. */
  ghost function ExchangeReaped(r: Registry, config: Config, now: int, owner: Owner): (Exchange, set<ClientId>, Registry) {
    if exists c :: Matches(r, owner, c) then
      var c :| Matches(r, owner, c);
      (Exchange(c, r.clients[c].sequenceId, r.clients[c].confirmed), {}, r)
    else
      var stale := set c | c in r.clients && StaleUnconfirmed(r, owner, c);
      var r' := DropRecords(r, stale);
      (Exchange(r.next, 1, false), stale,
       r'.(clients := r'.clients[r.next := Client(owner, false, 1, Replaced(r, owner), Active(now + config.lease))],
           next := r.next + 1))
  }

  ghost function ExchangeId(r: Registry, config: Config, now: int, owner: Owner, unprotected: bool)
    : (Result<Exchange>, set<ClientId>, Registry)
  {
    if !unprotected then (Failure(Inval), {}, r)
    else
      var (lost, reaped) := Reap(r, config, now);
      var (res, lost', r') := ExchangeReaped(reaped, config, now, owner);
      (Success(res), lost + lost', r')
  }

  // ---- CREATE_SESSION ----

  function NewSession(clientid: ClientId, maxRequests: nat, connection: nat, back: bool): Session {
    var n := if maxRequests < MAX_FORE_CHAN_SLOTS then maxRequests else MAX_FORE_CHAN_SLOTS;
    Session(clientid, seq(if n == 0 then 1 else n, _ => Sequence.NEW_SLOT), {connection}, if back then {connection} else {})
  }

  function Confirmed(client: Client, config: Config, now: int): Client {
    Client(client.owner, true, client.sequenceId + 1, None, Active(now + config.lease))
  }

  /** Once expired leases are gone; the session has the number the record's sequence id moves to. */
  function CreateReaped(r: Registry, config: Config, now: int, clientid: ClientId, seqid: nat, maxRequests: nat,
                        connection: nat, back: bool): (Result<SessionId>, set<ClientId>, Registry)
  {
    if clientid !in r.clients || r.clients[clientid].lease.Revoked? then (Failure(StaleClientid), {}, r)
    else if seqid != r.clients[clientid].sequenceId then (Failure(SeqMisordered), {}, r)
    else
      var client := r.clients[clientid];
      var lost := if client.replaced.Some? then {client.replaced.value} else {};
      var r' := DropRecords(r.(clients := r.clients[clientid := Confirmed(client, config, now)]), lost);
      var sid := SessionId(clientid, client.sequenceId + 1);
      (Success(sid), lost,
       r'.(sessions := r'.sessions[sid := NewSession(clientid, maxRequests, connection, back)], issued := r.issued + {sid}))
  }

  ghost function CreateSession(r: Registry, config: Config, now: int, clientid: ClientId, seqid: nat, maxRequests: nat,
                               connection: nat, back: bool): (Result<SessionId>, set<ClientId>, Registry)
  {
    var (lost, reaped) := Reap(r, config, now);
    var (res, lost', r') := CreateReaped(reaped, config, now, clientid, seqid, maxRequests, connection, back);
    (res, lost + lost', r')
  }

  // ---- DESTROY_SESSION, DESTROY_CLIENTID ----

  function DestroySessionReaped(r: Registry, sid: SessionId, connection: nat): (Status, Registry) {
    if sid !in r.sessions then (BadSession, r)
    else if connection !in r.sessions[sid].fore && connection !in r.sessions[sid].back then (ConnNotBoundToSession, r)
    else (Ok, r.(sessions := r.sessions - {sid}))
  }

  /** A connection that closes is unbound from every session. */
  function Unbind(r: Registry, connection: nat): Registry {
    r.(sessions := map sid | sid in r.sessions :: Unbound(r.sessions[sid], connection))
  }

  function Unbound(session: Session, connection: nat): Session {
    session.(fore := session.fore - {connection}, back := session.back - {connection})
  }

  /** `holdsState` tells whether the client still has an open, a lock or a live delegation. */
  ghost function DestroyClientReaped(r: Registry, c: ClientId, holdsState: bool): (Status, set<ClientId>, Registry) {
    if HasSession(r, c) || holdsState then (ClientidBusy, {}, r)
    else if c in r.clients then (Ok, {c}, DropRecords(r, {c}))
    else (StaleClientid, {c}, DropRecords(r, {c}))
  }

  // ---- SEQUENCE ----

  datatype SequenceAnswer = Answered(answer: Sequence.Answer) | StatusOnly

  function PutSession(r: Registry, sid: SessionId, session: Session): Registry {
    r.(sessions := r.sessions[sid := session])
  }

  function RenewLease(r: Registry, c: ClientId, deadline: int): Registry
    requires c in r.clients
  {
    r.(clients := r.clients[c := r.clients[c].(lease := Active(deadline))])
  }

  /** Why SEQUENCE is refused before its slot is looked at. */
  function Refused(r: Registry, sid: SessionId, slotid: nat, connection: nat): Option<Status> {
    if sid !in r.sessions then Some(BadSession)
    else if slotid >= |r.sessions[sid].slots| then Some(BadSlot)
    else if r.sessions[sid].clientid !in r.clients then Some(BadSession)
    else if connection in r.sessions[sid].back && connection !in r.sessions[sid].fore then Some(ConnNotBoundToSession)
    else None
  }

  /** Binds the connection to the session's fore channel and, unless the lease is revoked, turns to the slot. */
  function PrepareReaped(r: Registry, config: Config, now: int, sid: SessionId, slotid: nat, seqid: Sequence.SequenceId,
                         fingerprint: Bytes, connection: nat): (SequenceAnswer, Registry)
  {
    var refused := Refused(r, sid, slotid, connection);
    if refused.Some? then (Answered(Sequence.Error(refused.value)), r)
    else
      var session := r.sessions[sid].(fore := r.sessions[sid].fore + {connection});
      if r.clients[session.clientid].lease.Revoked? then (StatusOnly, PutSession(r, sid, session))
      else
        var (answer, slot) := Sequence.Prepare(session.slots[slotid], seqid, fingerprint);
        var r' := PutSession(r, sid, session.(slots := session.slots[slotid := slot]));
        (Answered(answer), if answer.Error? then r' else RenewLease(r', session.clientid, now + config.lease))
  }

  /** The end of a request that SEQUENCE let execute. */
  function FinishSequence(r: Registry, sid: SessionId, slotid: nat, fingerprint: Bytes, response: Bytes): (Status, Registry) {
    if sid !in r.sessions then (BadSession, r)
    else if slotid >= |r.sessions[sid].slots| then (BadSlot, r)
    else
      var session := r.sessions[sid];
      var slot := Sequence.Finish(session.slots[slotid], fingerprint, response);
      (Ok, PutSession(r, sid, session.(slots := session.slots[slotid := slot])))
  }

  // ---- Every operation keeps the invariant ----

  lemma DropKeeps(r: Registry, gone: set<ClientId>)
    requires Inv(r)
    ensures Inv(DropRecords(r, gone))
  {
    var r' := DropRecords(r, gone);
    forall c | c in r'.clients
      ensures ClientOk(r', c)
    {
      assert ClientOk(r, c);
    }
    forall a, b | a in r'.clients && b in r'.clients
      ensures PairOk(r', a, b)
    {
      assert PairOk(r, a, b);
    }
    forall sid | sid in r'.sessions
      ensures SessionOk(r', sid)
    {
      assert SessionOk(r, sid);
    }
    forall sid | sid in r'.issued
      ensures IssuedOk(r', sid)
    {
      assert IssuedOk(r, sid);
    }
  }

  /** An expired record that was never confirmed has no session, so it is forgotten at once. */
  lemma ReapKeeps(r: Registry, config: Config, now: int)
    requires Inv(r)
    ensures Inv(Reap(r, config, now).1)
  {
    var expired := Expired(r, now);
    var revoked := RevokeLeases(r, expired, now);
    var forgotten := Forgotten(revoked, config, now);
    var r' := DropRecords(revoked, forgotten);
    assert r' == Reap(r, config, now).1;
    forall c | c in r'.clients
      ensures ClientOk(r', c)
    {
      assert ClientOk(r, c);
      assert HasSession(revoked, c) == HasSession(r, c);
    }
    forall a, b | a in r'.clients && b in r'.clients
      ensures PairOk(r', a, b)
    {
      assert PairOk(r, a, b);
    }
    forall sid | sid in r'.sessions
      ensures SessionOk(r', sid)
    {
      assert SessionOk(r, sid);
    }
    forall sid | sid in r'.issued
      ensures IssuedOk(r', sid)
    {
      assert IssuedOk(r, sid);
    }
  }

  /** Any choice the code makes while searching the table is the only one. */
  lemma MatchUnique(r: Registry, owner: Owner, a: ClientId, b: ClientId)
    requires Inv(r)
    ensures Matches(r, owner, a) && Matches(r, owner, b) ==> a == b
    ensures (Restarts(r, owner, a) || Lapsed(r, owner, a)) && (Restarts(r, owner, b) || Lapsed(r, owner, b)) ==> a == b
    ensures StaleUnconfirmed(r, owner, a) && StaleUnconfirmed(r, owner, b) ==> a == b
  {
    if a in r.clients && b in r.clients {
      assert PairOk(r, a, b) && PairOk(r, b, a);
      assert ClientOk(r, a) && ClientOk(r, b);
    }
  }

  lemma ExchangeKeeps(r: Registry, config: Config, now: int, owner: Owner)
    requires Inv(r)
    ensures Inv(ExchangeReaped(r, config, now, owner).2)
  {
    if !exists c :: Matches(r, owner, c) {
      var stale := set c | c in r.clients && StaleUnconfirmed(r, owner, c);
      var kept := DropRecords(r, stale);
      DropKeeps(r, stale);
      var client := Client(owner, false, 1, Replaced(r, owner), Active(now + config.lease));
      AddKeeps(r, kept, client);
      assert ExchangeReaped(r, config, now, owner).2 == Added(kept, client);
    }
  }

  ghost predicate Adding(r: Registry, kept: Registry, client: Client) {
    && Inv(r) && Inv(kept) && (forall c :: !Matches(r, client.owner, c))
    && kept == DropRecords(r, set c | c in r.clients && StaleUnconfirmed(r, client.owner, c))
    && !client.confirmed && client.replaced == Replaced(r, client.owner) && client.lease.Active? && client.sequenceId == 1
  }

  function Added(r: Registry, client: Client): Registry {
    r.(clients := r.clients[r.next := client], next := r.next + 1)
  }

  /** What stays of the same owner is the confirmed record that the new one replaces. */
  lemma KeptIsReplaced(r: Registry, kept: Registry, client: Client, c: ClientId)
    requires Adding(r, kept, client) && c in kept.clients && kept.clients[c].owner.ownerid == client.owner.ownerid
    ensures kept.clients[c].confirmed && client.replaced == Some(c)
    ensures kept.clients[c].lease.Active? ==> kept.clients[c].owner.verifier != client.owner.verifier
  {
    assert ClientOk(r, c) && !StaleUnconfirmed(r, client.owner, c) && !Matches(r, client.owner, c);
    assert Restarts(r, client.owner, c) || Lapsed(r, client.owner, c);
    MatchUnique(r, client.owner, c, client.replaced.value);
  }

  lemma AddClientOk(r: Registry, kept: Registry, client: Client, c: ClientId)
    requires Adding(r, kept, client) && c in Added(kept, client).clients
    ensures ClientOk(Added(kept, client), c)
  {
    var r' := Added(kept, client);
    assert forall x | x in kept.clients :: ClientOk(kept, x);
    assert r.next !in kept.clients;
    if c == r.next {
      assert !HasSession(r', c) by {
        assert forall sid | sid in kept.sessions :: SessionOk(kept, sid);
      }
      if client.replaced.Some? {
        var x := client.replaced.value;
        assert ClientOk(r, x);
        if x in kept.clients {
          KeptIsReplaced(r, kept, client, x);
        }
      }
    } else {
      assert HasSession(r', c) == HasSession(kept, c);
    }
  }

  lemma AddPairOk(r: Registry, kept: Registry, client: Client, a: ClientId, b: ClientId)
    requires Adding(r, kept, client) && a in Added(kept, client).clients && b in Added(kept, client).clients
    ensures PairOk(Added(kept, client), a, b)
  {
    if a in kept.clients {
      assert ClientOk(kept, a);
      if b in kept.clients {
        assert ClientOk(kept, b) && PairOk(kept, a, b);
      } else if kept.clients[a].owner.ownerid == client.owner.ownerid {
        KeptIsReplaced(r, kept, client, a);
      }
    } else if b in kept.clients {
      assert ClientOk(kept, b);
    }
  }

  lemma AddKeeps(r: Registry, kept: Registry, client: Client)
    requires Adding(r, kept, client)
    ensures Inv(Added(kept, client))
  {
    var r' := Added(kept, client);
    forall c | c in r'.clients
      ensures ClientOk(r', c)
    {
      AddClientOk(r, kept, client, c);
    }
    forall a, b | a in r'.clients && b in r'.clients
      ensures PairOk(r', a, b)
    {
      AddPairOk(r, kept, client, a, b);
    }
    forall sid | sid in r'.sessions
      ensures SessionOk(r', sid)
    {
      assert SessionOk(kept, sid);
    }
    forall sid | sid in r'.issued
      ensures IssuedOk(r', sid)
    {
      assert IssuedOk(kept, sid);
    }
  }

  // ---- CREATE_SESSION ----

  /** Confirming a record drops the one it replaces, so the owner has one record again. */
  lemma CreateKeeps(r: Registry, config: Config, now: int, clientid: ClientId, seqid: nat, maxRequests: nat,
                    connection: nat, back: bool)
    requires Inv(r)
    ensures Inv(CreateReaped(r, config, now, clientid, seqid, maxRequests, connection, back).2)
  {
    var (res, lost, r') := CreateReaped(r, config, now, clientid, seqid, maxRequests, connection, back);
    if res.Success? {
      assert ClientOk(r, clientid);
      assert clientid !in lost;
      forall c | c in r'.clients
        ensures ClientOk(r', c)
      {
        assert ClientOk(r, c);
        CreateSessionsOf(r, config, now, clientid, seqid, maxRequests, connection, back, c);
        assert PairOk(r, c, clientid) && PairOk(r, clientid, c);
      }
      forall a, b | a in r'.clients && b in r'.clients
        ensures PairOk(r', a, b)
      {
        assert PairOk(r, a, b);
        assert PairOk(r, a, clientid) && PairOk(r, clientid, b) && ClientOk(r, a) && ClientOk(r, b);
      }
      forall sid | sid in r'.sessions
        ensures SessionOk(r', sid)
      {
        assert sid != res.value ==> SessionOk(r, sid);
      }
      forall sid | sid in r'.issued
        ensures IssuedOk(r', sid)
      {
        assert sid != res.value ==> IssuedOk(r, sid);
      }
    }
  }

  lemma CreateSessionsOf(r: Registry, config: Config, now: int, clientid: ClientId, seqid: nat, maxRequests: nat,
                         connection: nat, back: bool, c: ClientId)
    requires Inv(r) && c in r.clients
    ensures var r' := CreateReaped(r, config, now, clientid, seqid, maxRequests, connection, back).2;
            c != clientid && HasSession(r', c) ==> HasSession(r, c)
  {
    var r' := CreateReaped(r, config, now, clientid, seqid, maxRequests, connection, back).2;
    if c != clientid && HasSession(r', c) {
      var sid :| sid in r'.sessions && r'.sessions[sid].clientid == c;
      assert sid in r.sessions;
    }
  }

  // ---- The other operations ----

  /** Replacing sessions in place, and renewing leases, keeps the invariant. */
  lemma UpdateKeeps(r: Registry, r': Registry)
    requires Inv(r) && r'.next == r.next && r'.issued == r.issued
    requires r'.clients.Keys == r.clients.Keys
    requires forall c | c in r.clients :: r'.clients[c] == r.clients[c].(lease := r'.clients[c].lease)
    requires forall c | c in r.clients :: r'.clients[c].lease.Active? == r.clients[c].lease.Active?
    requires r'.sessions.Keys <= r.sessions.Keys
    requires forall sid | sid in r'.sessions :: r'.sessions[sid].clientid == r.sessions[sid].clientid && r'.sessions[sid].slots != []
    ensures Inv(r')
  {
    forall c | c in r'.clients
      ensures ClientOk(r', c)
    {
      assert ClientOk(r, c);
    }
    forall a, b | a in r'.clients && b in r'.clients
      ensures PairOk(r', a, b)
    {
      assert PairOk(r, a, b);
    }
    forall sid | sid in r'.sessions
      ensures SessionOk(r', sid)
    {
      assert SessionOk(r, sid);
    }
    forall sid | sid in r'.issued
      ensures IssuedOk(r', sid)
    {
      assert IssuedOk(r, sid);
    }
  }

  lemma DestroyKeeps(r: Registry, sid: SessionId, connection: nat)
    requires Inv(r)
    ensures Inv(DestroySessionReaped(r, sid, connection).1)
  {
    assert forall x | x in r.sessions :: SessionOk(r, x);
    UpdateKeeps(r, DestroySessionReaped(r, sid, connection).1);
  }

  lemma UnbindKeeps(r: Registry, connection: nat)
    requires Inv(r)
    ensures Inv(Unbind(r, connection))
  {
    assert forall x | x in r.sessions :: SessionOk(r, x);
    UpdateKeeps(r, Unbind(r, connection));
  }

  lemma PutKeeps(r: Registry, sid: SessionId, session: Session)
    requires Inv(r) && sid in r.sessions && session.clientid == r.sessions[sid].clientid && session.slots != []
    ensures Inv(PutSession(r, sid, session))
  {
    assert forall x | x in r.sessions :: SessionOk(r, x);
    UpdateKeeps(r, PutSession(r, sid, session));
  }

  lemma RenewKeeps(r: Registry, c: ClientId, deadline: int)
    requires Inv(r) && c in r.clients && r.clients[c].lease.Active?
    ensures Inv(RenewLease(r, c, deadline))
  {
    assert forall x | x in r.sessions :: SessionOk(r, x);
    UpdateKeeps(r, RenewLease(r, c, deadline));
  }

  /** A session put back with another slot or another connection, and perhaps its client's lease renewed. */
  ghost predicate Serves(r: Registry, r': Registry, sid: SessionId, session: Session, deadline: int)
    requires sid in r.sessions
  {
    && session.clientid == r.sessions[sid].clientid && session.slots != []
    && (r' == PutSession(r, sid, session)
        || (session.clientid in r.clients && r.clients[session.clientid].lease.Active?
            && r' == RenewLease(PutSession(r, sid, session), session.clientid, deadline)))
  }

  lemma ServesKeeps(r: Registry, r': Registry, sid: SessionId, session: Session, deadline: int)
    requires Inv(r) && sid in r.sessions && Serves(r, r', sid, session, deadline)
    ensures Inv(r')
  {
    var put := PutSession(r, sid, session);
    PutKeeps(r, sid, session);
    if r' != put {
      RenewKeeps(put, session.clientid, deadline);
    }
  }

  lemma PrepareServes(r: Registry, config: Config, now: int, sid: SessionId, slotid: nat, seqid: Sequence.SequenceId,
                      fingerprint: Bytes, connection: nat) returns (session: Session)
    requires Refused(r, sid, slotid, connection) == None
    ensures Serves(r, PrepareReaped(r, config, now, sid, slotid, seqid, fingerprint, connection).1, sid, session, now + config.lease)
  {
    session := r.sessions[sid].(fore := r.sessions[sid].fore + {connection});
    if r.clients[session.clientid].lease.Active? {
      var slot := Sequence.Prepare(session.slots[slotid], seqid, fingerprint).1;
      session := session.(slots := session.slots[slotid := slot]);
    }
  }

  lemma PrepareKeeps(r: Registry, config: Config, now: int, sid: SessionId, slotid: nat, seqid: Sequence.SequenceId,
                     fingerprint: Bytes, connection: nat)
    requires Inv(r)
    ensures Inv(PrepareReaped(r, config, now, sid, slotid, seqid, fingerprint, connection).1)
  {
    if Refused(r, sid, slotid, connection) == None {
      var session := PrepareServes(r, config, now, sid, slotid, seqid, fingerprint, connection);
      ServesKeeps(r, PrepareReaped(r, config, now, sid, slotid, seqid, fingerprint, connection).1, sid, session, now + config.lease);
    }
  }

  lemma FinishKeeps(r: Registry, sid: SessionId, slotid: nat, fingerprint: Bytes, response: Bytes)
    requires Inv(r)
    ensures Inv(FinishSequence(r, sid, slotid, fingerprint, response).1)
  {
    var r' := FinishSequence(r, sid, slotid, fingerprint, response).1;
    if sid in r.sessions && r' != r {
      PutKeeps(r, sid, r'.sessions[sid]);
    }
  }

  // ---- Steps and runs ----

  datatype Action =
    | Exchanging(owner: Owner, unprotected: bool)
    | Creating(clientid: ClientId, seqid: nat, maxRequests: nat, connection: nat, back: bool)
    | EndingSession(sid: SessionId, connection: nat)
    | EndingClient(c: ClientId, holdsState: bool)
    | Preparing(sid: SessionId, slotid: nat, requested: Sequence.SequenceId, fingerprint: Bytes, connection: nat)
    | Finishing(sid: SessionId, slotid: nat, fingerprint: Bytes, response: Bytes)
    | Disconnecting(connection: nat)
    | Reaping
  {
    /** Every operation but these starts by expiring leases. */
    predicate Reaps() {
      !Finishing? && !Disconnecting? && (Exchanging? ==> unprotected)
    }
  }

  /** An operation once expired leases are gone: whose state is lost, and the registry after it. */
  ghost function After(r: Registry, config: Config, now: int, a: Action): (set<ClientId>, Registry)
    requires a.Reaps()
  {
    if a.Exchanging? then
      var (_, lost, r') := ExchangeReaped(r, config, now, a.owner); (lost, r')
    else if a.Creating? then
      var (_, lost, r') := CreateReaped(r, config, now, a.clientid, a.seqid, a.maxRequests, a.connection, a.back); (lost, r')
    else if a.EndingSession? then ({}, DestroySessionReaped(r, a.sid, a.connection).1)
    else if a.EndingClient? then
      var (_, lost, r') := DestroyClientReaped(r, a.c, a.holdsState); (lost, r')
    else if a.Preparing? then
      ({}, PrepareReaped(r, config, now, a.sid, a.slotid, a.requested, a.fingerprint, a.connection).1)
    else ({}, r)
  }

  ghost function Step(r: Registry, config: Config, now: int, a: Action): (set<ClientId>, Registry) {
    if a.Finishing? then ({}, FinishSequence(r, a.sid, a.slotid, a.fingerprint, a.response).1)
    else if a.Disconnecting? then ({}, Unbind(r, a.connection))
    else if !a.Reaps() then ({}, r)
    else
      var (lost, reaped) := Reap(r, config, now);
      var (lost', r') := After(reaped, config, now, a);
      (lost + lost', r')
  }

  /** Steps with the times at which they happen. */
  ghost function Run(r: Registry, config: Config, actions: seq<(int, Action)>): Registry
    decreases |actions|
  {
    if actions == [] then r else Run(Step(r, config, actions[0].0, actions[0].1).1, config, actions[1..])
  }

  const START: Registry := Registry(map[], map[], 1, {})

  lemma AfterKeeps(r: Registry, config: Config, now: int, a: Action)
    requires Inv(r) && a.Reaps()
    ensures Inv(After(r, config, now, a).1)
  {
    var r' := After(r, config, now, a).1;
    if a.Exchanging? {
      assert r' == ExchangeReaped(r, config, now, a.owner).2;
      ExchangeKeeps(r, config, now, a.owner);
    } else if a.Creating? {
      assert r' == CreateReaped(r, config, now, a.clientid, a.seqid, a.maxRequests, a.connection, a.back).2;
      CreateKeeps(r, config, now, a.clientid, a.seqid, a.maxRequests, a.connection, a.back);
    } else if a.EndingSession? {
      DestroyKeeps(r, a.sid, a.connection);
    } else if a.EndingClient? {
      assert r' == r || r' == DropRecords(r, {a.c});
      DropKeeps(r, {a.c});
    } else if a.Preparing? {
      assert r' == PrepareReaped(r, config, now, a.sid, a.slotid, a.requested, a.fingerprint, a.connection).1;
      PrepareKeeps(r, config, now, a.sid, a.slotid, a.requested, a.fingerprint, a.connection);
    }
  }

  lemma StepKeepsInv(r: Registry, config: Config, now: int, a: Action)
    requires Inv(r)
    ensures Inv(Step(r, config, now, a).1)
  {
    if a.Finishing? {
      FinishKeeps(r, a.sid, a.slotid, a.fingerprint, a.response);
    } else if a.Disconnecting? {
      UnbindKeeps(r, a.connection);
    } else if a.Reaps() {
      ReapKeeps(r, config, now);
      AfterKeeps(Reap(r, config, now).1, config, now, a);
    }
  }

  lemma {:induction false} RunKeepsInv(r: Registry, config: Config, actions: seq<(int, Action)>)
    requires Inv(r)
    ensures Inv(Run(r, config, actions))
    decreases |actions|
  {
    if actions != [] {
      StepKeepsInv(r, config, actions[0].0, actions[0].1);
      RunKeepsInv(Step(r, config, actions[0].0, actions[0].1).1, config, actions[1..]);
    }
  }

  /**
    In every run an owner has at most a confirmed and an unconfirmed record; the unconfirmed one
    has no session and would replace the confirmed one; and sessions belong to confirmed records.
   */
  lemma RecordsOfOneOwner(config: Config, actions: seq<(int, Action)>, a: ClientId, b: ClientId)
    requires var r := Run(START, config, actions);
             a in r.clients && b in r.clients && a != b && r.clients[a].owner.ownerid == r.clients[b].owner.ownerid
    ensures var r := Run(START, config, actions);
            var (older, newer) := if a < b then (a, b) else (b, a);
            && r.clients[older].confirmed && !r.clients[newer].confirmed && r.clients[newer].replaced == Some(older)
            && !HasSession(r, newer)
  {
    RunKeepsInv(START, config, actions);
    var r := Run(START, config, actions);
    assert PairOk(r, a, b) && PairOk(r, b, a) && ClientOk(r, a) && ClientOk(r, b);
  }

  lemma SessionsAreConfirmed(config: Config, actions: seq<(int, Action)>, sid: SessionId)
    requires sid in Run(START, config, actions).sessions
    ensures var r := Run(START, config, actions);
            sid.clientid == r.sessions[sid].clientid && sid.clientid in r.clients && r.clients[sid.clientid].confirmed
  {
    RunKeepsInv(START, config, actions);
    var r := Run(START, config, actions);
    assert SessionOk(r, sid) && ClientOk(r, sid.clientid);
  }

  // ---- Who loses state ----

  /** A client loses its state exactly when its record goes or its lease is revoked. */
  lemma ReapLoses(r: Registry, config: Config, now: int, c: ClientId)
    requires c in r.clients
    ensures var (lost, r') := Reap(r, config, now);
            c in lost && c in r'.clients ==> r'.clients[c].lease == Revoked(now)
    ensures var (lost, r') := Reap(r, config, now);
            c !in lost ==> c in r'.clients && r'.clients[c] == r.clients[c]
  {
  }

  /**
    After expiry every active lease is still to run out, and every revoked record has a session to
    hear of it and is within the retention time; and nobody else has lost anything.
   */
  lemma ReapSettles(r: Registry, config: Config, now: int, c: ClientId)
    ensures var (lost, r') := Reap(r, config, now);
            && (c in r'.clients && r'.clients[c].lease.Active? ==> now < r'.clients[c].lease.deadline)
            && (c in r'.clients && r'.clients[c].lease.Revoked? ==>
                  HasSession(r', c) && now - r'.clients[c].lease.since < config.retention)
            && (c in lost ==> c in r.clients && (r.clients[c].lease.Revoked? || now >= r.clients[c].lease.deadline))
  {
    var revoked := RevokeLeases(r, Expired(r, now), now);
    var r' := Reap(r, config, now).1;
    if c in r'.clients && r'.clients[c].lease.Revoked? {
      assert !Forgettable(revoked, config, now, c);
      var sid :| sid in revoked.sessions && revoked.sessions[sid].clientid == c;
      assert sid in r'.sessions;
    }
  }

  lemma AfterLoses(r: Registry, config: Config, now: int, a: Action, c: ClientId)
    requires c in r.clients && a.Reaps()
    ensures var (lost, r') := After(r, config, now, a);
            c !in lost ==> c in r'.clients && (r'.clients[c].lease.Active? <== r.clients[c].lease.Active?)
  {
    if a.Preparing? && r.clients[c].lease.Active? {
      PrepareSpares(r, config, now, a, c);
    }
  }

  /** No record goes, and no lease is revoked, without the client's state being lost in the same step. */
  lemma StepLoses(r: Registry, config: Config, now: int, a: Action, c: ClientId)
    requires c in r.clients
    ensures var (lost, r') := Step(r, config, now, a);
            c !in lost ==> c in r'.clients && (r'.clients[c].lease.Active? <== r.clients[c].lease.Active?)
  {
    if a.Reaps() {
      ReapLoses(r, config, now, c);
      var (lost, reaped) := Reap(r, config, now);
      if c !in lost {
        AfterLoses(reaped, config, now, a, c);
      }
    }
  }

  /** Whether the step confirms a newer record of c's owner. */
  ghost predicate Supersedes(r: Registry, config: Config, now: int, a: Action, c: ClientId)
    requires c in r.clients
  {
    && a.Creating? && a.clientid != c && a.clientid in r.clients
    && r.clients[a.clientid].owner.ownerid == r.clients[c].owner.ownerid
    && CreateSession(r, config, now, a.clientid, a.seqid, a.maxRequests, a.connection, a.back).0.Success?
  }

  /**
    A confirmed client within its lease keeps its record and its state, whatever other clients do:
    only its own DESTROY_CLIENTID, or the confirmation of a newer record of its owner, ends it.
   */
  lemma ConfirmedSurvives(r: Registry, config: Config, now: int, a: Action, c: ClientId)
    requires Inv(r) && c in r.clients && r.clients[c].confirmed && r.clients[c].lease.Active? && now < r.clients[c].lease.deadline
    requires !(a.EndingClient? && a.c == c) && !Supersedes(r, config, now, a, c)
    ensures var (lost, r') := Step(r, config, now, a);
            c !in lost && c in r'.clients && r'.clients[c].confirmed && r'.clients[c].owner == r.clients[c].owner
            && r'.clients[c].lease.Active?
  {
    if a.Reaps() {
      ReapKeeps(r, config, now);
      ReapLoses(r, config, now, c);
      var reaped := Reap(r, config, now).1;
      if a.Creating? && a.clientid in reaped.clients {
        assert reaped.clients[a.clientid].owner == r.clients[a.clientid].owner;
        assert reaped.clients[c].owner == r.clients[c].owner;
      }
      AfterSpares(reaped, config, now, a, c);
    }
  }

  lemma AfterSpares(r: Registry, config: Config, now: int, a: Action, c: ClientId)
    requires Inv(r) && c in r.clients && r.clients[c].confirmed && r.clients[c].lease.Active? && a.Reaps()
    requires !(a.EndingClient? && a.c == c)
    requires a.Creating?
      && a.clientid != c && a.clientid in r.clients && r.clients[a.clientid].owner.ownerid == r.clients[c].owner.ownerid
      ==> CreateReaped(r, config, now, a.clientid, a.seqid, a.maxRequests, a.connection, a.back).0.Failure?
    ensures var (lost, r') := After(r, config, now, a);
            && c !in lost && c in r'.clients && r'.clients[c].confirmed && r'.clients[c].owner == r.clients[c].owner
            && r'.clients[c].lease.Active?
  {
    if a.Creating? {
      CreateSpares(r, config, now, a, c);
    } else if a.Exchanging? {
      ExchangeSpares(r, config, now, a.owner, c);
    } else if a.Preparing? {
      PrepareSpares(r, config, now, a, c);
    }
  }

  lemma CreateSpares(r: Registry, config: Config, now: int, a: Action, c: ClientId)
    requires Inv(r) && c in r.clients && r.clients[c].confirmed && r.clients[c].lease.Active? && a.Creating?
    requires
      && a.clientid != c && a.clientid in r.clients && r.clients[a.clientid].owner.ownerid == r.clients[c].owner.ownerid
      ==> CreateReaped(r, config, now, a.clientid, a.seqid, a.maxRequests, a.connection, a.back).0.Failure?
    ensures var (_, lost, r') := CreateReaped(r, config, now, a.clientid, a.seqid, a.maxRequests, a.connection, a.back);
            && c !in lost && c in r'.clients && r'.clients[c].confirmed && r'.clients[c].owner == r.clients[c].owner
            && r'.clients[c].lease.Active?
  {
    assert ClientOk(r, c);
    if a.clientid in r.clients {
      assert ClientOk(r, a.clientid);
    }
  }

  lemma ExchangeSpares(r: Registry, config: Config, now: int, owner: Owner, c: ClientId)
    requires Inv(r) && c in r.clients && r.clients[c].confirmed
    ensures var (_, lost, r') := ExchangeReaped(r, config, now, owner);
            c !in lost && c in r'.clients && r'.clients[c] == r.clients[c]
  {
    assert ClientOk(r, c);
  }

  lemma PrepareSpares(r: Registry, config: Config, now: int, a: Action, c: ClientId)
    requires c in r.clients && r.clients[c].lease.Active? && a.Preparing?
    ensures var r' := PrepareReaped(r, config, now, a.sid, a.slotid, a.requested, a.fingerprint, a.connection).1;
            c in r'.clients && r'.clients[c] == r.clients[c].(lease := r'.clients[c].lease) && r'.clients[c].lease.Active?
  {
  }

  /** Confirming does end the record it replaces, and leaves its owner with one record. */
  lemma ConfirmationReplaces(r: Registry, config: Config, now: int, clientid: ClientId, seqid: nat, maxRequests: nat,
                             connection: nat, back: bool, c: ClientId)
    requires Inv(r) && c in r.clients && clientid in r.clients && !r.clients[clientid].confirmed
    requires r.clients[c].owner.ownerid == r.clients[clientid].owner.ownerid
    requires CreateSession(r, config, now, clientid, seqid, maxRequests, connection, back).0.Success?
    ensures var (_, lost, r') := CreateSession(r, config, now, clientid, seqid, maxRequests, connection, back);
            if c == clientid then c in r'.clients && c !in lost && r'.clients[c].confirmed
            else c !in r'.clients && c in lost && !HasSession(r', c)
  {
    ReapKeeps(r, config, now);
    ReapLoses(r, config, now, c);
    var (lost, reaped) := Reap(r, config, now);
    var created := CreateReaped(reaped, config, now, clientid, seqid, maxRequests, connection, back);
    CreateKeeps(reaped, config, now, clientid, seqid, maxRequests, connection, back);
    assert clientid !in lost by {
      ReapLoses(r, config, now, clientid);
    }
    assert created.0.Success?;
    CreatedAlone(reaped, config, now, clientid, seqid, maxRequests, connection, back, c);
    assert !HasSession(created.2, c) || c in created.2.clients by {
      assert forall sid | sid in created.2.sessions :: SessionOk(created.2, sid);
    }
  }

  lemma CreatedAlone(r: Registry, config: Config, now: int, clientid: ClientId, seqid: nat, maxRequests: nat,
                     connection: nat, back: bool, c: ClientId)
    requires Inv(r) && CreateReaped(r, config, now, clientid, seqid, maxRequests, connection, back).0.Success?
    requires !r.clients[clientid].confirmed
    requires c in r.clients ==> r.clients[c].owner.ownerid == r.clients[clientid].owner.ownerid
    ensures var (_, lost, r') := CreateReaped(r, config, now, clientid, seqid, maxRequests, connection, back);
            if c == clientid then c in r'.clients && c !in lost && r'.clients[c].confirmed
            else c !in r'.clients && (c in r.clients ==> c in lost)
  {
    assert ClientOk(r, clientid);
    if c in r.clients {
      assert PairOk(r, c, clientid) && PairOk(r, clientid, c) && ClientOk(r, c);
    }
  }

  /** EXCHANGE_ID gives the owner an active record, and asking again before it lapses gives the same one. */
  lemma ExchangeAgain(r: Registry, config: Config, now: int, later: int, owner: Owner)
    requires Inv(r)
    requires var (res, _, r') := ExchangeId(r, config, now, owner, true);
             res.value.clientid in r'.clients ==> later < r'.clients[res.value.clientid].lease.deadline
    ensures var (res, _, r') := ExchangeId(r, config, now, owner, true);
            && Matches(r', owner, res.value.clientid)
            && ExchangeId(r', config, later, owner, true).0 == res
            && res.value.clientid !in ExchangeId(r', config, later, owner, true).1
  {
    ReapKeeps(r, config, now);
    var reaped := Reap(r, config, now).1;
    ExchangeKeeps(reaped, config, now, owner);
    var (res, _, r') := ExchangeId(r, config, now, owner, true);
    var id := res.value.clientid;
    assert Matches(r', owner, id);
    ReapKeeps(r', config, later);
    ReapLoses(r', config, later, id);
    var again := Reap(r', config, later).1;
    assert Matches(again, owner, id);
    var other := ExchangeReaped(again, config, later, owner).0.clientid;
    assert Matches(again, owner, other);
    MatchUnique(again, owner, id, other);
  }

  // ---- Session ids ----

  lemma StepIssues(r: Registry, config: Config, now: int, a: Action)
    requires Inv(r)
    ensures var r' := Step(r, config, now, a).1;
            r.issued <= r'.issued && forall sid | sid in r'.sessions && sid !in r.sessions :: sid !in r.issued
  {
    if a.Finishing? || a.Disconnecting? {
      assert Step(r, config, now, a).1.sessions.Keys == r.sessions.Keys;
    } else if a.Reaps() {
      var reaped := Reap(r, config, now).1;
      assert reaped.issued == r.issued && reaped.sessions.Keys <= r.sessions.Keys;
      ReapKeeps(r, config, now);
      AfterIssues(reaped, config, now, a);
    }
  }

  lemma AfterIssues(r: Registry, config: Config, now: int, a: Action)
    requires Inv(r) && a.Reaps()
    ensures var r' := After(r, config, now, a).1;
            r.issued <= r'.issued && forall sid | sid in r'.sessions && sid !in r.sessions :: sid !in r.issued
  {
    var r' := After(r, config, now, a).1;
    if a.Creating? {
      CreateIssues(r, config, now, a);
    } else {
      assert r'.sessions.Keys <= r.sessions.Keys && r'.issued == r.issued;
    }
  }

  /** The new session's number is above every number its client has had. */
  lemma CreateIssues(r: Registry, config: Config, now: int, a: Action)
    requires Inv(r) && a.Creating?
    ensures var r' := After(r, config, now, a).1;
            r.issued <= r'.issued && forall sid | sid in r'.sessions && sid !in r.sessions :: sid !in r.issued
  {
    if a.clientid in r.clients {
      var sid := SessionId(a.clientid, r.clients[a.clientid].sequenceId + 1);
      assert sid in r.issued ==> IssuedOk(r, sid);
    }
  }

  /** A session that has ended stays ended: its id is never given out again. */
  lemma {:induction false} EndedSessionStaysEnded(r: Registry, config: Config, actions: seq<(int, Action)>, sid: SessionId)
    requires Inv(r) && sid in r.issued && sid !in r.sessions
    ensures sid !in Run(r, config, actions).sessions
    decreases |actions|
  {
    if actions != [] {
      StepKeepsInv(r, config, actions[0].0, actions[0].1);
      StepIssues(r, config, actions[0].0, actions[0].1);
      EndedSessionStaysEnded(Step(r, config, actions[0].0, actions[0].1).1, config, actions[1..], sid);
    }
  }
}
