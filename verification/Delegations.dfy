/**
  Directory delegations: one table and two indexes, by directory and by client, that must agree
  on membership; limits on how many are live; and recall.
 */
module Delegations {
  import opened NfsTypes
  import opened Stateids

  datatype DelegStatus = Granted | RecallInProgress | Returned | Revoked

  datatype Deleg = Deleg(obj: ServerObject, clientid: ClientId, seqid: nat, status: DelegStatus) {
    predicate Live() {
      status == Granted || status == RecallInProgress
    }
  }

  /** `next` is the stateid counter, shared with opens and locks. */
  datatype DelegState = DelegState(
    table: map<Other, Deleg>,
    byDir: map<ServerObject, set<Other>>,
    byClient: map<ClientId, set<Other>>,
    next: nat,
    retired: set<ObjectId>)

  datatype Limits = Limits(perClient: nat, total: nat)

  function At<K, V>(m: map<K, set<V>>, k: K): set<V> {
    if k in m then m[k] else {}
  }

  // ---- The invariant ----

  /** The table and the index by directory list the same delegations. */
  ghost predicate DirsAgree(d: DelegState) {
    && (forall o, x | o in At(d.byDir, x) :: o in d.table && d.table[o].obj == x)
    && (forall o | o in d.table :: o in At(d.byDir, d.table[o].obj))
  }

  /** The table and the index by client list the same delegations. */
  ghost predicate ClientsAgree(d: DelegState) {
    && (forall o, c | o in At(d.byClient, c) :: o in d.table && d.table[o].clientid == c)
    && (forall o | o in d.table :: o in At(d.byClient, d.table[o].clientid))
  }

  ghost predicate IndexesAgree(d: DelegState) {
    DirsAgree(d) && ClientsAgree(d)
  }

  ghost predicate KeysIssued(d: DelegState) {
    forall o | o in d.table :: o.counter < d.next && d.table[o].seqid == 1
  }

  /** A client has at most one live delegation of a directory. */
  ghost predicate OnePerDirectory(d: DelegState) {
    forall a, b | a in d.table && b in d.table && d.table[a].Live() && d.table[b].Live()
                  && d.table[a].obj == d.table[b].obj && d.table[a].clientid == d.table[b].clientid ::
      a == b
  }

  ghost function LiveSet(d: DelegState): set<Other> {
    set o | o in d.table && d.table[o].Live()
  }

  ghost function LiveOfClient(d: DelegState, c: ClientId): set<Other> {
    set o | o in d.table && d.table[o].Live() && d.table[o].clientid == c
  }

  ghost function LiveOfDir(d: DelegState, x: ServerObject): set<Other> {
    set o | o in d.table && d.table[o].Live() && d.table[o].obj == x
  }

  ghost predicate WithinLimits(d: DelegState, limits: Limits) {
    |LiveSet(d)| <= limits.total && forall c :: |LiveOfClient(d, c)| <= limits.perClient
  }

  ghost predicate Inv(d: DelegState, limits: Limits) {
    IndexesAgree(d) && KeysIssued(d) && OnePerDirectory(d) && WithinLimits(d, limits)
  }

  ghost predicate RecallUnderWay(d: DelegState, x: ServerObject) {
    exists o | o in d.table :: d.table[o].obj == x && d.table[o].status == RecallInProgress
  }

  // ---- Operations ----

  datatype Grant = NewlyGranted(stateid: Stateid) | AlreadyHeld | Unavailable

  ghost predicate HoldsLive(d: DelegState, x: ServerObject, c: ClientId) {
    exists o | o in d.table :: d.table[o].Live() && d.table[o].obj == x && d.table[o].clientid == c
  }

  function Insert(d: DelegState, o: Other, deleg: Deleg): DelegState {
    d.(table := d.table[o := deleg],
       byDir := d.byDir[deleg.obj := At(d.byDir, deleg.obj) + {o}],
       byClient := d.byClient[deleg.clientid := At(d.byClient, deleg.clientid) + {o}],
       next := d.next + 1)
  }

  ghost function GrantDir(d: DelegState, limits: Limits, x: ServerObject, c: ClientId): (Result<Grant>, DelegState) {
    if x.Base() in d.retired then (Failure(Status.Stale), d)
    else if HoldsLive(d, x, c) then (Success(AlreadyHeld), d)
    else if RecallUnderWay(d, x) || |LiveOfClient(d, c)| >= limits.perClient || |LiveSet(d)| >= limits.total
    then (Success(Unavailable), d)
    else
      var o := Other(d.next, c);
      (Success(NewlyGranted(Stateid(1, o))), Insert(d, o, Deleg(x, c, 1, Granted)))
  }

  /** Take one stateid out of an index entry, and the entry out of the index when it is the last. */
  function Unindex<K>(m: map<K, set<Other>>, k: K, o: Other): map<K, set<Other>> {
    if k !in m then m
    else if m[k] - {o} == {} then m - {k}
    else m[k := m[k] - {o}]
  }

  /** remove_delegation_locked: out of the table and both indexes. */
  function Drop(d: DelegState, o: Other): DelegState {
    if o !in d.table then d
    else d.(table := d.table - {o},
            byDir := Unindex(d.byDir, d.table[o].obj, o),
            byClient := Unindex(d.byClient, d.table[o].clientid, o))
  }

  function Return(d: DelegState, s: Stateid, clientid: Option<ClientId>): (Status, DelegState) {
    if s.other !in d.table then (BadStateid, d)
    else
      var deleg := d.table[s.other];
      if ValidateSeq(deleg.seqid, s.seqid) != Ok then (ValidateSeq(deleg.seqid, s.seqid), d)
      else if clientid.Some? && deleg.clientid != clientid.value then (BadStateid, d)
      else if deleg.status == Revoked then (DelegRevoked, d)
      else (Ok, Drop(d, s.other))
  }

  function FreeDeleg(d: DelegState, s: Stateid): (Status, DelegState) {
    if s.other !in d.table then (BadStateid, d)
    else
      var deleg := d.table[s.other];
      if ValidateSeq(deleg.seqid, s.seqid) != Ok then (ValidateSeq(deleg.seqid, s.seqid), d)
      else if deleg.Live() then (LocksHeld, d)
      else (Ok, Drop(d, s.other))
  }

  function Revoke(d: DelegState, s: Stateid): (Status, DelegState) {
    if s.other !in d.table then (BadStateid, d)
    else
      var deleg := d.table[s.other];
      if ValidateSeq(deleg.seqid, s.seqid) != Ok then (ValidateSeq(deleg.seqid, s.seqid), d)
      else (Ok, d.(table := d.table[s.other := deleg.(status := Revoked)]))
  }

  /** Every granted delegation of x, except the excluded client's, is being recalled. */
  function BeginRecall(d: DelegState, x: ServerObject, excluded: Option<ClientId>): DelegState {
    d.(table := map o | o in d.table ::
         if d.table[o].obj == x && d.table[o].status == Granted && excluded != Some(d.table[o].clientid)
         then d.table[o].(status := RecallInProgress) else d.table[o])
  }

  /** The delegations a recall selects. */
  function Selected(d: DelegState, x: ServerObject, excluded: Option<ClientId>): set<Other> {
    set o | o in d.table && d.table[o].obj == x
            && (d.table[o].status == RecallInProgress
                || (d.table[o].status == Granted && excluded != Some(d.table[o].clientid)))
  }

  /** All of a client's delegations go, from the table and both indexes. */
  function PurgeClient(d: DelegState, c: ClientId): DelegState {
    var gone := At(d.byClient, c);
    DropAll(d, gone)
  }

  function UnindexAll<K>(m: map<K, set<Other>>, gone: set<Other>): map<K, set<Other>> {
    map k | k in m && (m[k] * gone == {} || m[k] - gone != {}) :: m[k] - gone
  }

  /** Dropping a set of delegations, in any order. */
  function DropAll(d: DelegState, gone: set<Other>): DelegState {
    d.(table := d.table - gone,
       byDir := UnindexAll(d.byDir, gone),
       byClient := UnindexAll(d.byClient, gone))
  }

  /** The sweep of a retirement. */
  function Invalidate(d: DelegState, ids: set<ObjectId>): DelegState {
    var gone := set o | o in d.table && d.table[o].obj.Base() in ids;
    d.(table := d.table - gone,
       byDir := map x | x in d.byDir && x.Base() !in ids :: d.byDir[x],
       byClient := map c | c in d.byClient :: d.byClient[c] - gone)
  }

  // ---- Every operation keeps the invariant ----

  lemma FewerLive(d: DelegState, d': DelegState, limits: Limits)
    requires WithinLimits(d, limits) && LiveSet(d') <= LiveSet(d)
    requires forall o | o in LiveSet(d') :: d'.table[o].clientid == d.table[o].clientid
    ensures WithinLimits(d', limits)
  {
    SubsetSize(LiveSet(d'), LiveSet(d));
    forall c
      ensures |LiveOfClient(d', c)| <= limits.perClient
    {
      forall o | o in LiveOfClient(d', c)
        ensures o in LiveOfClient(d, c)
      {
        assert o in LiveSet(d') && o in LiveSet(d);
      }
      SubsetSize(LiveOfClient(d', c), LiveOfClient(d, c));
    }
  }

  /** What every step but a grant does to the table: entries go, or keep all but their status, and none revives. */
  ghost predicate Fades(d: DelegState, d': DelegState) {
    && d'.next >= d.next && d.retired <= d'.retired
    && (forall o | o in d'.table :: o in d.table && d'.table[o] == d.table[o].(status := d'.table[o].status)
          && (d'.table[o].Live() ==> d.table[o].Live())
          && (d.table[o].status == RecallInProgress ==> d'.table[o].status != Granted))
  }

  lemma FadeKeeps(d: DelegState, d': DelegState, limits: Limits)
    requires Inv(d, limits) && Fades(d, d') && IndexesAgree(d')
    ensures Inv(d', limits)
  {
    FewerLive(d, d', limits);
  }

  lemma UnindexAt<K>(m: map<K, set<Other>>, k: K, o: Other)
    ensures forall j :: At(Unindex(m, k, o), j) == if j == k then At(m, k) - {o} else At(m, j)
  {
  }

  lemma DropDirs(d: DelegState, o: Other)
    requires DirsAgree(d) && o in d.table
    ensures DirsAgree(Drop(d, o))
  {
    UnindexAt(d.byDir, d.table[o].obj, o);
  }

  lemma DropClients(d: DelegState, o: Other)
    requires ClientsAgree(d) && o in d.table
    ensures ClientsAgree(Drop(d, o))
  {
    UnindexAt(d.byClient, d.table[o].clientid, o);
  }

  lemma DropAgrees(d: DelegState, o: Other)
    requires IndexesAgree(d)
    ensures IndexesAgree(Drop(d, o)) && Fades(d, Drop(d, o))
  {
    if o in d.table {
      DropDirs(d, o);
      DropClients(d, o);
    }
  }

  lemma DropAllAgrees(d: DelegState, gone: set<Other>)
    requires IndexesAgree(d)
    ensures IndexesAgree(DropAll(d, gone)) && Fades(d, DropAll(d, gone))
  {
    var d' := DropAll(d, gone);
    assert forall x :: At(d'.byDir, x) == At(d.byDir, x) - gone;
    assert forall c :: At(d'.byClient, c) == At(d.byClient, c) - gone;
  }

  lemma InvalidateAgrees(d: DelegState, ids: set<ObjectId>)
    requires IndexesAgree(d)
    ensures IndexesAgree(Invalidate(d, ids)) && Fades(d, Invalidate(d, ids))
  {
    var d', gone := Invalidate(d, ids), set o | o in d.table && d.table[o].obj.Base() in ids;
    assert forall x :: At(d'.byDir, x) == if x.Base() in ids then {} else At(d.byDir, x);
    assert forall c :: At(d'.byClient, c) == At(d.byClient, c) - gone;
  }

  lemma StatusAgrees(d: DelegState, d': DelegState)
    requires IndexesAgree(d) && d'.byDir == d.byDir && d'.byClient == d.byClient && d'.table.Keys == d.table.Keys
    requires forall o | o in d.table :: d'.table[o].obj == d.table[o].obj && d'.table[o].clientid == d.table[o].clientid
    ensures IndexesAgree(d')
  {
  }

  lemma InsertDirs(d: DelegState, o: Other, deleg: Deleg)
    requires DirsAgree(d) && o !in d.table
    ensures DirsAgree(Insert(d, o, deleg))
  {
    var d' := Insert(d, o, deleg);
    assert forall x :: At(d'.byDir, x) == if x == deleg.obj then At(d.byDir, x) + {o} else At(d.byDir, x);
  }

  lemma InsertClients(d: DelegState, o: Other, deleg: Deleg)
    requires ClientsAgree(d) && o !in d.table
    ensures ClientsAgree(Insert(d, o, deleg))
  {
    var d' := Insert(d, o, deleg);
    assert forall c :: At(d'.byClient, c) == if c == deleg.clientid then At(d.byClient, c) + {o} else At(d.byClient, c);
  }

  /** A grant adds at most one fresh delegation, of an unretired object with no recall under way. */
  lemma GrantAdds(d: DelegState, limits: Limits, x: ServerObject, c: ClientId)
    ensures var d' := GrantDir(d, limits, x, c).1;
            d' == d || (d'.table == d.table[Other(d.next, c) := Deleg(x, c, 1, Granted)] && d'.next == d.next + 1
                        && d'.retired == d.retired && x.Base() !in d.retired && !RecallUnderWay(d, x))
  {
  }

  lemma GrantKeeps(d: DelegState, limits: Limits, x: ServerObject, c: ClientId)
    requires Inv(d, limits)
    ensures Inv(GrantDir(d, limits, x, c).1, limits)
  {
    var (res, d') := GrantDir(d, limits, x, c);
    if res.Success? && res.value.NewlyGranted? {
      var o, deleg := Other(d.next, c), Deleg(x, c, 1, Granted);
      assert d' == Insert(d, o, deleg);
      InsertKeeps(d, limits, o, deleg);
    }
  }

  lemma InsertKeeps(d: DelegState, limits: Limits, o: Other, deleg: Deleg)
    requires Inv(d, limits) && o.counter == d.next && deleg.Live() && deleg.seqid == 1
    requires !HoldsLive(d, deleg.obj, deleg.clientid)
    requires |LiveOfClient(d, deleg.clientid)| < limits.perClient && |LiveSet(d)| < limits.total
    ensures Inv(Insert(d, o, deleg), limits)
  {
    InsertDirs(d, o, deleg);
    InsertClients(d, o, deleg);
    InsertOnePerDirectory(d, o, deleg);
    InsertLive(d, o, deleg);
    forall c
      ensures |LiveOfClient(Insert(d, o, deleg), c)| <= limits.perClient
    {
      InsertLiveOfClient(d, o, deleg, c);
    }
  }

  lemma InsertLive(d: DelegState, o: Other, deleg: Deleg)
    requires o !in d.table && deleg.Live()
    ensures |LiveSet(Insert(d, o, deleg))| == |LiveSet(d)| + 1
  {
    assert LiveSet(Insert(d, o, deleg)) == LiveSet(d) + {o};
  }

  lemma InsertLiveOfClient(d: DelegState, o: Other, deleg: Deleg, c: ClientId)
    requires o !in d.table && deleg.Live()
    ensures |LiveOfClient(Insert(d, o, deleg), c)| == |LiveOfClient(d, c)| + if c == deleg.clientid then 1 else 0
  {
    if c == deleg.clientid {
      assert LiveOfClient(Insert(d, o, deleg), c) == LiveOfClient(d, c) + {o};
    } else {
      assert LiveOfClient(Insert(d, o, deleg), c) == LiveOfClient(d, c);
    }
  }

  lemma InsertOnePerDirectory(d: DelegState, o: Other, deleg: Deleg)
    requires OnePerDirectory(d) && o !in d.table && !HoldsLive(d, deleg.obj, deleg.clientid)
    ensures OnePerDirectory(Insert(d, o, deleg))
  {
  }

  // ---- Steps and runs ----

  datatype Action =
    | GrantOne(x: ServerObject, c: ClientId)
    | ReturnOne(s: Stateid, clientid: Option<ClientId>)
    | FreeOne(s: Stateid)
    | RevokeOne(s: Stateid)
    | Recall(x: ServerObject, excluded: Option<ClientId>)
    | LoseClient(c: ClientId)                                  // DELEGPURGE, lease expiry, or a dropped record
    | MarkRetired(id: ObjectId)
    | Sweep(ids: set<ObjectId>)
    | IssueElsewhere                                           // an open or a lock took the next counter

  ghost function Step(d: DelegState, limits: Limits, a: Action): DelegState {
    match a
    case GrantOne(x, c) => GrantDir(d, limits, x, c).1
    case ReturnOne(s, clientid) => Return(d, s, clientid).1
    case FreeOne(s) => FreeDeleg(d, s).1
    case RevokeOne(s) => Revoke(d, s).1
    case Recall(x, excluded) => BeginRecall(d, x, excluded)
    case LoseClient(c) => PurgeClient(d, c)
    case MarkRetired(id) => d.(retired := d.retired + {id})
    case Sweep(ids) => Invalidate(d, ids)
    case IssueElsewhere => d.(next := d.next + 1)
  }

  ghost function Run(d: DelegState, limits: Limits, actions: seq<Action>): DelegState
    decreases |actions|
  {
    if actions == [] then d else Run(Step(d, limits, actions[0]), limits, actions[1..])
  }

  const EMPTY: DelegState := DelegState(map[], map[], map[], 1, {})

  /** Every step but a grant fades the table and keeps the indexes in agreement. */
  lemma StepFades(d: DelegState, limits: Limits, a: Action)
    requires IndexesAgree(d) && !a.GrantOne?
    ensures Fades(d, Step(d, limits, a)) && IndexesAgree(Step(d, limits, a))
  {
    match a
    case ReturnOne(s, clientid) =>
      assert Step(d, limits, a) == Return(d, s, clientid).1;
      ReturnFades(d, s, clientid);
    case FreeOne(s) =>
      assert Step(d, limits, a) == FreeDeleg(d, s).1;
      FreeFades(d, s);
    case RevokeOne(s) =>
      assert Step(d, limits, a) == Revoke(d, s).1;
      RevokeFades(d, s);
    case Recall(x, excluded) =>
      assert Step(d, limits, a) == BeginRecall(d, x, excluded);
      RecallFades(d, x, excluded);
    case LoseClient(c) =>
      assert Step(d, limits, a) == DropAll(d, At(d.byClient, c));
      DropAllAgrees(d, At(d.byClient, c));
    case MarkRetired(_) => StatusAgrees(d, Step(d, limits, a));
    case Sweep(ids) =>
      assert Step(d, limits, a) == Invalidate(d, ids);
      InvalidateAgrees(d, ids);
    case IssueElsewhere => StatusAgrees(d, Step(d, limits, a));
  }

  lemma ReturnFades(d: DelegState, s: Stateid, clientid: Option<ClientId>)
    requires IndexesAgree(d)
    ensures Fades(d, Return(d, s, clientid).1) && IndexesAgree(Return(d, s, clientid).1)
  {
    if Return(d, s, clientid).0 == Ok {
      assert Return(d, s, clientid).1 == Drop(d, s.other);
      DropAgrees(d, s.other);
    }
  }

  lemma FreeFades(d: DelegState, s: Stateid)
    requires IndexesAgree(d)
    ensures Fades(d, FreeDeleg(d, s).1) && IndexesAgree(FreeDeleg(d, s).1)
  {
    if FreeDeleg(d, s).0 == Ok {
      assert FreeDeleg(d, s).1 == Drop(d, s.other);
      DropAgrees(d, s.other);
    }
  }

  lemma RevokeFades(d: DelegState, s: Stateid)
    requires IndexesAgree(d)
    ensures Fades(d, Revoke(d, s).1) && IndexesAgree(Revoke(d, s).1)
  {
    if Revoke(d, s).0 == Ok {
      StatusAgrees(d, Revoke(d, s).1);
    }
  }

  lemma RecallFades(d: DelegState, x: ServerObject, excluded: Option<ClientId>)
    requires IndexesAgree(d)
    ensures Fades(d, BeginRecall(d, x, excluded)) && IndexesAgree(BeginRecall(d, x, excluded))
  {
    StatusAgrees(d, BeginRecall(d, x, excluded));
  }

  lemma StepKeepsInv(d: DelegState, limits: Limits, a: Action)
    requires Inv(d, limits)
    ensures Inv(Step(d, limits, a), limits)
  {
    if a.GrantOne? {
      assert Step(d, limits, a) == GrantDir(d, limits, a.x, a.c).1;
      GrantKeeps(d, limits, a.x, a.c);
    } else {
      StepFades(d, limits, a);
      FadeKeeps(d, Step(d, limits, a), limits);
    }
  }

  /** In every run the indexes agree, the limits hold and no client has two live delegations of a directory. */
  lemma {:induction false} RunKeepsInv(d: DelegState, limits: Limits, actions: seq<Action>)
    requires Inv(d, limits)
    ensures Inv(Run(d, limits, actions), limits)
    decreases |actions|
  {
    if actions != [] {
      StepKeepsInv(d, limits, actions[0]);
      RunKeepsInv(Step(d, limits, actions[0]), limits, actions[1..]);
    }
  }

  /** The same, from a server that has granted nothing. */
  lemma EveryRunAgrees(limits: Limits, actions: seq<Action>)
    ensures Inv(Run(EMPTY, limits, actions), limits)
  {
    assert LiveSet(EMPTY) == {} && forall c :: LiveOfClient(EMPTY, c) == {};
    RunKeepsInv(EMPTY, limits, actions);
  }

  // ---- Recall ----

  /** While a recall of x is under way, the live delegations of x only become fewer. */
  lemma RecallOnlyShrinks(d: DelegState, limits: Limits, a: Action, x: ServerObject)
    requires Inv(d, limits) && RecallUnderWay(d, x)
    ensures LiveOfDir(Step(d, limits, a), x) <= LiveOfDir(d, x)
  {
    if a.GrantOne? {
      GrantAdds(d, limits, a.x, a.c);
    } else {
      StepFades(d, limits, a);
    }
  }

  /** Not outstanding: returned, revoked or gone. */
  predicate Settled(d: DelegState, o: Other) {
    o in d.table ==> !d.table[o].Live()
  }

  lemma StepKeepsSettled(d: DelegState, limits: Limits, a: Action, o: Other)
    requires Inv(d, limits) && Settled(d, o) && o.counter < d.next
    ensures Settled(Step(d, limits, a), o) && o.counter < Step(d, limits, a).next
  {
    if a.GrantOne? {
      assert Step(d, limits, a) == GrantDir(d, limits, a.x, a.c).1;
      GrantAdds(d, limits, a.x, a.c);
    } else {
      StepFades(d, limits, a);
    }
  }

  /** A delegation that is no longer live never becomes live again, whatever clients do. */
  lemma {:induction false} SettledForever(d: DelegState, limits: Limits, actions: seq<Action>, o: Other)
    requires Inv(d, limits) && Settled(d, o) && o.counter < d.next
    ensures Settled(Run(d, limits, actions), o) && o.counter < Run(d, limits, actions).next
    decreases |actions|
  {
    if actions != [] {
      StepKeepsInv(d, limits, actions[0]);
      StepKeepsSettled(d, limits, actions[0], o);
      SettledForever(Step(d, limits, actions[0]), limits, actions[1..], o);
    }
  }

  /** A swept, marked object never has a delegation again. */
  ghost predicate ClearOf(d: DelegState, ids: set<ObjectId>) {
    forall o | o in d.table :: d.table[o].obj.Base() !in ids
  }

  lemma StepStaysClear(d: DelegState, limits: Limits, a: Action, ids: set<ObjectId>)
    requires IndexesAgree(d) && ids <= d.retired && ClearOf(d, ids)
    ensures ClearOf(Step(d, limits, a), ids) && ids <= Step(d, limits, a).retired
  {
    if a.GrantOne? {
      assert Step(d, limits, a) == GrantDir(d, limits, a.x, a.c).1;
      GrantAdds(d, limits, a.x, a.c);
    } else {
      StepFades(d, limits, a);
    }
  }

  lemma {:induction false} RetiredStayClear(d: DelegState, limits: Limits, actions: seq<Action>, ids: set<ObjectId>)
    requires Inv(d, limits) && ids <= d.retired && ClearOf(d, ids)
    ensures ClearOf(Run(d, limits, actions), ids)
    decreases |actions|
  {
    if actions != [] {
      StepKeepsInv(d, limits, actions[0]);
      StepStaysClear(d, limits, actions[0], ids);
      RetiredStayClear(Step(d, limits, actions[0]), limits, actions[1..], ids);
    }
  }
}
