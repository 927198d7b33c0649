/**
  LOCK takes two guards: one to look for a lock in the way, another to write its own. Here they
  are two steps, between which anything else may happen.
 */
module LockRace {
  import opened NfsTypes
  import opened Stateids
  import opened LockRanges
  import opened Files
  import FR = FileRuns

  /** A LOCK that found nothing in its way: `s` names an open for a new lock owner, a lock otherwise. */
  datatype Pending = Pending(first: bool, s: Stateid, owner: StateOwner, obj: ServerObject, range: LockRange)

  /** The first guard, for a new lock owner. */
  ghost function TestNew(f: FileState, clientid: ClientId, open: Stateid, owner: StateOwner, obj: ServerObject, r: LockRange)
    : Result<Pending>
  {
    if !r.Bounded() then Failure(Inval)
    else match Resolve(f, Some(clientid), open)
      case Failure(e) => Failure(e)
      case Success(found) =>
        if !found.ResolvedOpen? || found.open.obj != obj then Failure(Openmode)
        else if LockDeniedBy(f, obj, owner, r, None) then Failure(Denied)
        else Success(Pending(true, open, owner, obj, r))
  }

  /** The first guard, for an existing lock owner. */
  ghost function TestMore(f: FileState, clientid: ClientId, s: Stateid, obj: ServerObject, r: LockRange): Result<Pending> {
    if !r.Bounded() then Failure(Inval)
    else match Resolve(f, Some(clientid), s)
      case Failure(e) => Failure(e)
      case Success(found) =>
        if !found.ResolvedLock? || found.lock.obj != obj then Failure(BadStateid)
        else if LockDeniedBy(f, obj, found.lock.owner, r, Some(s.other)) then Failure(Denied)
        else Success(Pending(false, s, found.lock.owner, obj, r))
  }

  /** The second guard. It looks at retirement and the open, or at the stateid, and not for locks in the way. */
  function Insert(f: FileState, p: Pending): (Result<Stateid>, FileState) {
    var k := p.s.other;
    if !p.range.Bounded() then (Failure(Inval), f)
    else if p.first then
      if p.obj.Base() in f.retired then (Failure(Status.Stale), f)
      else if k !in f.opens || !f.opens[k].active || f.opens[k].obj != p.obj then (Failure(Openmode), f)
      else
        var o := Other(f.next, p.owner.clientid);
        (Success(Stateid(1, o)),
         f.(locks := f.locks[o := Lock(p.obj, p.owner, k, [p.range], true, 1)], next := f.next + 1))
    else if k !in f.locks then (Failure(BadStateid), f)
    else if ValidateSeq(f.locks[k].seqid, p.s.seqid) != Ok then (Failure(ValidateSeq(f.locks[k].seqid, p.s.seqid)), f)
    else
      var l := f.locks[k];
      (Success(Stateid(l.seqid + 1, k)),
       f.(locks := f.locks[k := l.(ranges := Replaced(l.ranges, p.range), active := true, seqid := l.seqid + 1)]))
  }

  /** With nothing between its two guards, LOCK is the one step it is elsewhere in this model. */
  lemma AdjacentIsAtomic(f: FileState, clientid: ClientId, s: Stateid, owner: StateOwner, obj: ServerObject, r: LockRange)
    ensures var t := TestNew(f, clientid, s, owner, obj, r);
            LockNew(f, clientid, s, owner, obj, r) == if t.Failure? then (Failure(t.status), f) else Insert(f, t.value)
    ensures var t := TestMore(f, clientid, s, obj, r);
            LockMore(f, clientid, s, obj, r) == if t.Failure? then (Failure(t.status), f) else Insert(f, t.value)
  {
    assert Resolve(f, Some(clientid), s).Success? ==> ResolvesTo(f, s, Resolve(f, Some(clientid), s).value);
  }

  ghost predicate ResolvesTo(f: FileState, s: Stateid, found: Resolved) {
    match found
    case ResolvedOpen(open) => s.other in f.opens && f.opens[s.other] == open && open.active
    case ResolvedLock(lock, _) =>
      s.other in f.locks && f.locks[s.other] == lock && ValidateSeq(lock.seqid, s.seqid) == Ok
  }

  // ---- Steps and runs ----

  /** `since` is the history of lock states written since each pending test; no step reads it. */
  datatype State = State(files: FileState, pending: map<nat, Pending>, since: map<nat, set<Other>>)

  datatype Action =
    | AskNew(ticket: nat, clientid: ClientId, open: Stateid, owner: StateOwner, obj: ServerObject, range: LockRange)
    | AskMore(ticket: nat, clientid: ClientId, s: Stateid, obj: ServerObject, range: LockRange)
    | Put(ticket: nat)
    | Between(a: FR.Action)
  {
    predicate Proper() {
      Between? ==> !a.TakeLock? && !a.ExtendLock?
    }
  }

  function Enter(s: State, ticket: nat, test: Result<Pending>): State {
    if ticket in s.pending || test.Failure? then s
    else s.(pending := s.pending[ticket := test.value], since := s.since[ticket := {}])
  }

  function Written(s: State, o: Other): map<nat, set<Other>> {
    map t | t in s.since :: s.since[t] + {o}
  }

  function PutStep(s: State, ticket: nat): State {
    if ticket !in s.pending then s
    else
      var (r, f) := Insert(s.files, s.pending[ticket]);
      State(f, s.pending - {ticket}, (if r.Success? then Written(s, r.value.other) else s.since) - {ticket})
  }

  ghost function Step(s: State, a: Action): State {
    match a
    case AskNew(ticket, clientid, open, owner, obj, r) => Enter(s, ticket, TestNew(s.files, clientid, open, owner, obj, r))
    case AskMore(ticket, clientid, lock, obj, r) => Enter(s, ticket, TestMore(s.files, clientid, lock, obj, r))
    case Put(ticket) => PutStep(s, ticket)
    case Between(a) => s.(files := FR.Step(s.files, a))
  }

  ghost predicate AllProper(actions: seq<Action>) {
    forall i | 0 <= i < |actions| :: actions[i].Proper()
  }

  ghost function Run(s: State, actions: seq<Action>): State
    decreases |actions|
  {
    if actions == [] then s else Run(Step(s, actions[0]), actions[1..])
  }

  const START: State := State(FR.EMPTY, map[], map[])

  // ---- What holds in every run ----

  /** Another owner's lock shares a byte below 2^64-1 with the request, and one of the two is for writing. */
  ghost predicate Clashes(l: Lock, p: Pending) {
    && l.obj == p.obj && l.owner != p.owner
    && exists q: int | q < U64_MAX && p.range.Covers(q) :: TypesClash(TypeAt(l.ranges, q), Some(p.range.locktype))
  }

  ghost predicate ClashFree(f: FileState, p: Pending) {
    forall k | k in f.locks :: !Clashes(f.locks[k], p)
  }

  /** The part of the files' invariant that an insert keeps whatever it meets. */
  ghost predicate Sound(f: FileState) {
    RangesSound(f) && forall k | k in f.locks :: k.counter < f.next
  }

  ghost predicate PendingOk(f: FileState, p: Pending) {
    && p.range.Bounded()
    && (!p.first ==> p.s.other.counter < f.next)
    && (!p.first && p.s.other in f.locks ==> f.locks[p.s.other].owner == p.owner && f.locks[p.s.other].obj == p.obj)
  }

  /** Whatever clashes with the request was written since its test. */
  ghost predicate Explained(f: FileState, p: Pending, since: set<Other>) {
    forall k | k in f.locks && Clashes(f.locks[k], p) :: k in since
  }

  ghost predicate TicketOk(s: State, t: nat) {
    t in s.pending && t in s.since && PendingOk(s.files, s.pending[t]) && Explained(s.files, s.pending[t], s.since[t])
  }

  ghost predicate Inv(s: State) {
    Sound(s.files) && s.since.Keys == s.pending.Keys && forall t | t in s.pending :: TicketOk(s, t)
  }

  /** Nobody holds more than before, and nothing new is held. */
  ghost predicate Shrinks(f: FileState, f': FileState) {
    && f.next <= f'.next && f'.locks.Keys <= f.locks.Keys
    && forall k | k in f'.locks :: LockShrinks(f.locks[k], f'.locks[k])
  }

  ghost predicate LockShrinks(l: Lock, l': Lock) {
    && l'.obj == l.obj && l'.owner == l.owner
    && forall q: int | q < U64_MAX :: TypeAt(l'.ranges, q) in {None, TypeAt(l.ranges, q)}
  }

  lemma UnlockShrinks(f: FileState, clientid: ClientId, s: Stateid, obj: ServerObject, offset: u64, length: u64)
    requires Sound(f)
    ensures var f' := UnlockRange(f, clientid, s, obj, offset, length).1; Sound(f') && Shrinks(f, f')
  {
    var (res, f') := UnlockRange(f, clientid, s, obj, offset, length);
    if res.Success? {
      UnlockedIsUpdate(f.locks[s.other].ranges, offset, length);
    }
  }

  lemma BetweenShrinks(f: FileState, a: FR.Action)
    requires Sound(f) && Between(a).Proper()
    ensures Sound(FR.Step(f, a)) && Shrinks(f, FR.Step(f, a))
  {
    if a.Unlock? {
      assert FR.Step(f, a) == UnlockRange(f, a.clientid, a.s, a.obj, a.offset, a.length).1;
      UnlockShrinks(f, a.clientid, a.s, a.obj, a.offset, a.length);
    } else if FR.Drops(a) {
      FR.DropStep(f, a);
    } else {
      assert FR.Step(f, a).locks == f.locks && f.next <= FR.Step(f, a).next;
    }
  }

  lemma ShrunkExplained(f: FileState, f': FileState, p: Pending, since: set<Other>)
    requires Shrinks(f, f') && PendingOk(f, p) && Explained(f, p, since)
    ensures PendingOk(f', p) && Explained(f', p, since)
  {
    forall k | k in f'.locks && Clashes(f'.locks[k], p)
      ensures k in since
    {
      assert LockShrinks(f.locks[k], f'.locks[k]);
      var q: int :| q < U64_MAX && p.range.Covers(q) && TypesClash(TypeAt(f'.locks[k].ranges, q), Some(p.range.locktype));
      assert TypesClash(TypeAt(f.locks[k].ranges, q), Some(p.range.locktype));
    }
  }

  /** A request that passes its test clashes with nothing. */
  lemma TestedIsClashFree(f: FileState, p: Pending, ignore: Option<Other>)
    requires Sound(f) && p.range.Bounded() && !LockDeniedBy(f, p.obj, p.owner, p.range, ignore)
    requires ignore.Some? && ignore.value in f.locks ==> f.locks[ignore.value].owner == p.owner
    ensures ClashFree(f, p)
  {
    forall k | k in f.locks && f.locks[k].obj == p.obj && f.locks[k].owner != p.owner
      ensures !Clashes(f.locks[k], p)
    {
      var l := f.locks[k];
      assert !LockInTheWay(l, p.obj, p.owner, p.range);
      forall q: int | q < U64_MAX && p.range.Covers(q)
        ensures !TypesClash(TypeAt(l.ranges, q), Some(p.range.locktype))
      {
        NotInTheWay(l, p.range, q);
      }
    }
  }

  lemma EnterKeeps(s: State, ticket: nat, test: Result<Pending>)
    requires Inv(s)
    requires test.Success? ==> PendingOk(s.files, test.value) && ClashFree(s.files, test.value)
    ensures Inv(Enter(s, ticket, test))
  {
    var s' := Enter(s, ticket, test);
    forall t | t in s'.pending
      ensures TicketOk(s', t)
    {
      assert t in s.pending ==> TicketOk(s, t);
    }
  }

  lemma TestNewOk(f: FileState, clientid: ClientId, open: Stateid, owner: StateOwner, obj: ServerObject, r: LockRange)
    requires Sound(f)
    ensures var t := TestNew(f, clientid, open, owner, obj, r); t.Success? ==> PendingOk(f, t.value) && ClashFree(f, t.value)
  {
    var t := TestNew(f, clientid, open, owner, obj, r);
    if t.Success? {
      TestedIsClashFree(f, t.value, None);
    }
  }

  lemma TestMoreOk(f: FileState, clientid: ClientId, s: Stateid, obj: ServerObject, r: LockRange)
    requires Sound(f)
    ensures var t := TestMore(f, clientid, s, obj, r); t.Success? ==> PendingOk(f, t.value) && ClashFree(f, t.value)
  {
    var t := TestMore(f, clientid, s, obj, r);
    if t.Success? {
      assert ResolvesTo(f, s, Resolve(f, Some(clientid), s).value);
      TestedIsClashFree(f, t.value, Some(s.other));
    }
  }

  /** What a successful insert writes: one lock state of the request's owner, with the range added to it. */
  ghost predicate Writes(f: FileState, p: Pending, k: Other, f': FileState) {
    && k in f'.locks && f'.locks == f.locks[k := f'.locks[k]] && f.next <= f'.next && k.counter < f'.next
    && (k in f.locks || k.counter == f.next) && (k in f.locks ==> f.locks[k].owner == p.owner && f.locks[k].obj == p.obj)
    && f'.locks[k].owner == p.owner && f'.locks[k].obj == p.obj
    && forall q: int | q < U64_MAX :: TypeAt(f'.locks[k].ranges, q) == After(f, p, k, q)
  }

  function After(f: FileState, p: Pending, k: Other, q: int): Option<LockType> {
    if p.range.Covers(q) then Some(p.range.locktype) else if k in f.locks then TypeAt(f.locks[k].ranges, q) else None
  }

  lemma InsertWrites(f: FileState, p: Pending)
    requires Sound(f) && PendingOk(f, p)
    ensures var (r, f') := Insert(f, p);
            Sound(f') && if r.Success? then Writes(f, p, r.value.other, f') else f' == f
  {
    var (r, f') := Insert(f, p);
    if r.Success? && p.first {
      FirstWrites(f, p, f');
    } else if r.Success? {
      MoreWrites(f, p, f');
    }
  }

  lemma FirstWrites(f: FileState, p: Pending, f': FileState)
    requires Sound(f) && p.range.Bounded()
    requires var o := Other(f.next, p.owner.clientid);
             f'.locks == f.locks[o := Lock(p.obj, p.owner, p.s.other, [p.range], true, 1)] && f'.next == f.next + 1
    ensures Sound(f') && Writes(f, p, Other(f.next, p.owner.clientid), f')
  {
    forall q: int | q < U64_MAX
      ensures TypeAt([p.range], q) == After(f, p, Other(f.next, p.owner.clientid), q)
    {
      SingleRange(p.range, q);
    }
    SingleRange(p.range, 0);
  }

  lemma MoreWrites(f: FileState, p: Pending, f': FileState)
    requires Sound(f) && PendingOk(f, p) && !p.first && p.s.other in f.locks && f'.next == f.next
    requires var l := f.locks[p.s.other];
             f'.locks == f.locks[p.s.other := l.(ranges := Replaced(l.ranges, p.range), active := true, seqid := l.seqid + 1)]
    ensures Sound(f') && Writes(f, p, p.s.other, f')
  {
    var was := f.locks[p.s.other].ranges;
    ReplacedIsUpdate(was, p.range);
    ReplacedNonEmpty(was, p.range);
  }

  lemma WrittenExplained(f: FileState, p: Pending, k: Other, f': FileState, other: Pending, since: set<Other>)
    requires Writes(f, p, k, f') && PendingOk(f, other) && Explained(f, other, since)
    ensures PendingOk(f', other) && Explained(f', other, since + {k})
  {
  }

  lemma PutKeeps(s: State, ticket: nat)
    requires Inv(s)
    ensures Inv(PutStep(s, ticket))
  {
    if ticket in s.pending {
      var p := s.pending[ticket];
      assert TicketOk(s, ticket);
      InsertWrites(s.files, p);
      var (r, f) := Insert(s.files, p);
      var s' := PutStep(s, ticket);
      forall t | t in s'.pending
        ensures TicketOk(s', t)
      {
        assert TicketOk(s, t);
        if r.Success? {
          WrittenExplained(s.files, p, r.value.other, f, s.pending[t], s.since[t]);
        }
      }
    }
  }

  lemma BetweenKeeps(s: State, a: FR.Action)
    requires Inv(s) && Between(a).Proper()
    ensures Inv(s.(files := FR.Step(s.files, a)))
  {
    BetweenShrinks(s.files, a);
    var s' := s.(files := FR.Step(s.files, a));
    forall t | t in s'.pending
      ensures TicketOk(s', t)
    {
      assert TicketOk(s, t);
      ShrunkExplained(s.files, s'.files, s.pending[t], s.since[t]);
    }
  }

  lemma StepKeepsInv(s: State, a: Action)
    requires Inv(s) && a.Proper()
    ensures Inv(Step(s, a))
  {
    match a
    case AskNew(ticket, clientid, open, owner, obj, r) =>
      TestNewOk(s.files, clientid, open, owner, obj, r);
      EnterKeeps(s, ticket, TestNew(s.files, clientid, open, owner, obj, r));
    case AskMore(ticket, clientid, lock, obj, r) =>
      TestMoreOk(s.files, clientid, lock, obj, r);
      EnterKeeps(s, ticket, TestMore(s.files, clientid, lock, obj, r));
    case Put(ticket) => PutKeeps(s, ticket);
    case Between(a) => BetweenKeeps(s, a);
  }

  lemma {:induction false} RunKeepsInv(s: State, actions: seq<Action>)
    requires Inv(s) && AllProper(actions)
    ensures Inv(Run(s, actions))
    decreases |actions|
  {
    if actions != [] {
      StepKeepsInv(s, actions[0]);
      RunKeepsInv(Step(s, actions[0]), actions[1..]);
    }
  }

  /** In every run, a lock that clashes with a LOCK between its guards was written since that LOCK's test. */
  lemma ClashIsRecent(actions: seq<Action>, t: nat, k: Other)
    requires AllProper(actions)
    requires var s := Run(START, actions); t in s.pending && k in s.files.locks && Clashes(s.files.locks[k], s.pending[t])
    ensures var s := Run(START, actions); t in s.since && k in s.since[t]
  {
    RunKeepsInv(START, actions);
    assert TicketOk(Run(START, actions), t);
  }

  // ---- When exclusion survives ----

  /** The step writes a lock that clashes with another owner's. */
  ghost predicate Intrudes(s: State, a: Action) {
    && a.Put? && a.ticket in s.pending && Insert(s.files, s.pending[a.ticket]).0.Success?
    && !ClashFree(s.files, s.pending[a.ticket])
  }

  lemma ShrunkExclusive(f: FileState, f': FileState)
    requires LocksExclusive(f) && Shrinks(f, f')
    ensures LocksExclusive(f')
  {
    forall a, b | a in f'.locks && b in f'.locks && f'.locks[a].obj == f'.locks[b].obj && f'.locks[a].owner != f'.locks[b].owner
      ensures BytesExclusive(f'.locks[a], f'.locks[b])
    {
      assert LockShrinks(f.locks[a], f'.locks[a]) && LockShrinks(f.locks[b], f'.locks[b]);
      assert BytesExclusive(f.locks[a], f.locks[b]);
      forall q: int | q < U64_MAX
        ensures !TypesClash(TypeAt(f'.locks[a].ranges, q), TypeAt(f'.locks[b].ranges, q))
      {
        assert !TypesClash(TypeAt(f.locks[a].ranges, q), TypeAt(f.locks[b].ranges, q));
      }
    }
  }

  lemma WriteStaysExclusive(f: FileState, p: Pending, k: Other, f': FileState)
    requires LocksExclusive(f) && Writes(f, p, k, f') && ClashFree(f, p)
    ensures LocksExclusive(f')
  {
    forall b | b in f.locks && b != k && f.locks[b].obj == p.obj && f.locks[b].owner != p.owner
      ensures BytesExclusive(f'.locks[k], f.locks[b]) && BytesExclusive(f.locks[b], f'.locks[k])
    {
      assert !Clashes(f.locks[b], p);
      assert k in f.locks ==> BytesExclusive(f.locks[k], f.locks[b]);
      forall q: int | q < U64_MAX
        ensures !TypesClash(TypeAt(f'.locks[k].ranges, q), TypeAt(f.locks[b].ranges, q))
      {
        assert TypeAt(f'.locks[k].ranges, q) == After(f, p, k, q);
        assert p.range.Covers(q) ==> !TypesClash(TypeAt(f.locks[b].ranges, q), Some(p.range.locktype));
      }
    }
  }

  lemma WriteIntrudes(f: FileState, p: Pending, k: Other, f': FileState, b: Other)
    requires Writes(f, p, k, f') && b in f.locks && Clashes(f.locks[b], p)
    ensures !LocksExclusive(f')
  {
    var q: int :| q < U64_MAX && p.range.Covers(q) && TypesClash(TypeAt(f.locks[b].ranges, q), Some(p.range.locktype));
    assert b != k && f'.locks[b] == f.locks[b];
    assert TypeAt(f'.locks[k].ranges, q) == After(f, p, k, q);
    assert TypesClash(TypeAt(f'.locks[k].ranges, q), TypeAt(f'.locks[b].ranges, q));
    assert !BytesExclusive(f'.locks[k], f'.locks[b]);
  }

  /** Exclusion ends in exactly the steps that write over a clash. */
  lemma ExclusiveUnlessIntruded(s: State, a: Action)
    requires Inv(s) && a.Proper() && LocksExclusive(s.files)
    ensures LocksExclusive(Step(s, a).files) <==> !Intrudes(s, a)
  {
    if a.Between? {
      BetweenShrinks(s.files, a.a);
      ShrunkExclusive(s.files, Step(s, a).files);
    } else if a.Put? && a.ticket in s.pending {
      var p := s.pending[a.ticket];
      assert TicketOk(s, a.ticket);
      InsertWrites(s.files, p);
      var (r, f') := Insert(s.files, p);
      if r.Success? {
        if b :| b in s.files.locks && Clashes(s.files.locks[b], p) {
          WriteIntrudes(s.files, p, r.value.other, f', b);
        } else {
          WriteStaysExclusive(s.files, p, r.value.other, f');
        }
      }
    }
  }

  ghost predicate StaysExclusive(s: State, actions: seq<Action>)
    decreases |actions|
  {
    LocksExclusive(s.files) && (actions != [] ==> StaysExclusive(Step(s, actions[0]), actions[1..]))
  }

  ghost predicate NoneIntrudes(s: State, actions: seq<Action>)
    decreases |actions|
  {
    actions == [] || (!Intrudes(s, actions[0]) && NoneIntrudes(Step(s, actions[0]), actions[1..]))
  }

  lemma {:induction false} ExclusiveRuns(s: State, actions: seq<Action>)
    requires Inv(s) && LocksExclusive(s.files) && AllProper(actions)
    ensures StaysExclusive(s, actions) <==> NoneIntrudes(s, actions)
    decreases |actions|
  {
    if actions != [] {
      StepKeepsInv(s, actions[0]);
      ExclusiveUnlessIntruded(s, actions[0]);
      if !Intrudes(s, actions[0]) {
        ExclusiveRuns(Step(s, actions[0]), actions[1..]);
      }
    }
  }

  /** Two owners never hold a byte against each other, through exactly the runs in which no LOCK writes over a clash. */
  lemma ExclusionHoldsIff(actions: seq<Action>)
    requires AllProper(actions)
    ensures StaysExclusive(START, actions) <==> NoneIntrudes(START, actions)
  {
    ExclusiveRuns(START, actions);
  }

  /** Every LOCK writes before anybody else has written since its test. */
  ghost predicate Serial(s: State, actions: seq<Action>)
    decreases |actions|
  {
    actions == []
    || ((actions[0].Put? && actions[0].ticket in s.since ==> s.since[actions[0].ticket] == {})
        && Serial(Step(s, actions[0]), actions[1..]))
  }

  lemma {:induction false} SerialNeverIntrudes(s: State, actions: seq<Action>)
    requires Inv(s) && AllProper(actions) && Serial(s, actions)
    ensures NoneIntrudes(s, actions)
    decreases |actions|
  {
    if actions != [] {
      var a := actions[0];
      if a.Put? && a.ticket in s.pending {
        assert TicketOk(s, a.ticket);
      }
      StepKeepsInv(s, a);
      SerialNeverIntrudes(Step(s, a), actions[1..]);
    }
  }

  /** Without another write between its guards, no LOCK can break exclusion. */
  lemma SerialLocksExclude(actions: seq<Action>)
    requires AllProper(actions) && Serial(START, actions)
    ensures StaysExclusive(START, actions)
  {
    SerialNeverIntrudes(START, actions);
    ExclusionHoldsIff(actions);
  }

  /** Two active opens of an object by different clients, and no locks yet. */
  ghost predicate TwoOpens(f: FileState, obj: ServerObject, a: Other, b: Other) {
    && a in f.opens && b in f.opens && f.opens[a].active && f.opens[b].active
    && f.opens[a].obj == obj && f.opens[b].obj == obj && obj.Base() !in f.retired
    && f.opens[a].clientid != f.opens[b].clientid && f.locks == map[]
  }

  function Request(f: FileState, open: Other, obj: ServerObject, r: LockRange): Pending
    requires open in f.opens
  {
    Pending(true, Stateid(0, open), StateOwner(f.opens[open].clientid, []), obj, r)
  }

  function Asks(f: FileState, ticket: nat, open: Other, obj: ServerObject, r: LockRange): Action
    requires open in f.opens
  {
    AskNew(ticket, f.opens[open].clientid, Stateid(0, open), StateOwner(f.opens[open].clientid, []), obj, r)
  }

  lemma BothPass(f: FileState, obj: ServerObject, a: Other, b: Other, r: LockRange)
    requires TwoOpens(f, obj, a, b) && r.Bounded()
    ensures Step(Step(State(f, map[], map[]), Asks(f, 1, a, obj, r)), Asks(f, 2, b, obj, r))
         == State(f, map[1 := Request(f, a, obj, r), 2 := Request(f, b, obj, r)], map[1 := {}, 2 := {}])
  {
    var s0 := State(f, map[], map[]);
    var s1 := Step(s0, Asks(f, 1, a, obj, r));
    assert s1 == State(f, map[1 := Request(f, a, obj, r)], map[1 := {}]);
  }

  lemma FirstPut(s: State, p: Pending, q: Pending)
    requires p.first && q.first && p.range.Bounded() && s.files.locks == map[] && s.pending == map[1 := p, 2 := q]
    requires Insert(s.files, p).0.Success?
    ensures var s' := Step(s, Put(1));
            && s'.files == s.files.(locks := map[Other(s.files.next, p.owner.clientid) := Lock(p.obj, p.owner, p.s.other, [p.range], true, 1)],
                                    next := s.files.next + 1)
            && s'.pending == map[2 := q]
  {
  }

  /** Two clients lock one free byte for writing, and both tests come first: both are granted it. */
  lemma BothTakeTheByte(f: FileState, obj: ServerObject, a: Other, b: Other, offset: u64)
    requires TwoOpens(f, obj, a, b) && offset < U64_MAX
    ensures var r := LockRange(WriteLt, offset, 1);
            var s := Run(State(f, map[], map[]), [Asks(f, 1, a, obj, r), Asks(f, 2, b, obj, r), Put(1), Put(2)]);
            var k, l := Other(f.next, f.opens[a].clientid), Other(f.next + 1, f.opens[b].clientid);
            && k in s.files.locks && l in s.files.locks && s.files.locks[k].owner != s.files.locks[l].owner
            && s.files.locks[k].obj == s.files.locks[l].obj == obj
            && s.files.locks[k].ranges == s.files.locks[l].ranges == [r] && !LocksExclusive(s.files)
  {
    var r := LockRange(WriteLt, offset, 1);
    var x, y := Asks(f, 1, a, obj, r), Asks(f, 2, b, obj, r);
    var s0 := State(f, map[], map[]);
    RunFour(s0, x, y, Put(1), Put(2));
    BothPass(f, obj, a, b, r);
    var s2 := Step(Step(s0, x), y);
    FirstPut(s2, Request(f, a, obj, r), Request(f, b, obj, r));
    var s4 := Step(Step(s2, Put(1)), Put(2));
    SingleRange(r, offset);
    var k, l := Other(f.next, f.opens[a].clientid), Other(f.next + 1, f.opens[b].clientid);
    assert !BytesExclusive(s4.files.locks[k], s4.files.locks[l]);
  }

  lemma RunFour(s: State, a: Action, b: Action, c: Action, d: Action)
    ensures Run(s, [a, b, c, d]) == Step(Step(Step(Step(s, a), b), c), d)
  {
    var s1 := Step(s, a);
    var s2 := Step(s1, b);
    var s3 := Step(s2, c);
    assert [a, b, c, d][1..] == [b, c, d] && [b, c, d][1..] == [c, d] && [c, d][1..] == [d] && [d][1..] == [];
    assert Run(s3, [d]) == Step(s3, d);
    assert Run(s2, [c, d]) == Run(s3, [d]);
    assert Run(s1, [b, c, d]) == Run(s2, [c, d]);
  }
}
