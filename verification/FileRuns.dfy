/**
  Runs of the open and lock tables: any sequence of client operations, lease expiries and
  retirements, each taking effect as one step.
 */
module FileRuns {
  import opened NfsTypes
  import opened Stateids
  import opened LockRanges
  import opened Files

  // ---- The remaining steps ----

  /** FREE_STATEID on an open or a lock; None when the stateid is neither. */
  ghost function Free(f: FileState, s: Stateid): (Option<Status>, FileState) {
    if s.other in f.opens then
      var v := ValidateSeq(f.opens[s.other].seqid, s.seqid);
      if v != Ok then (Some(v), f)
      else if f.opens[s.other].active || HoldsLocks(f, s.other) then (Some(LocksHeld), f)
      else (Some(Ok), f.(opens := f.opens - {s.other}))
    else if s.other in f.locks then
      var v := ValidateSeq(f.locks[s.other].seqid, s.seqid);
      if v != Ok then (Some(v), f)
      else if f.locks[s.other].active then (Some(LocksHeld), f)
      else (Some(Ok), f.(locks := f.locks - {s.other}))
    else (None, f)
  }

  /** Everything a client loses when its lease expires or its record is dropped. */
  function RevokeClient(f: FileState, clientid: ClientId): FileState {
    f.(opens := map k | k in f.opens && f.opens[k].clientid != clientid :: f.opens[k],
       locks := map k | k in f.locks && f.locks[k].owner.clientid != clientid :: f.locks[k])
  }

  /** The sweep of a retirement. */
  function Invalidate(f: FileState, ids: set<ObjectId>): FileState {
    f.(opens := map k | k in f.opens && f.opens[k].obj.Base() !in ids :: f.opens[k],
       locks := map k | k in f.locks && f.locks[k].obj.Base() !in ids :: f.locks[k])
  }

  /** Dropping entries keeps the invariant, whatever is dropped. */
  lemma DropKeeps(f: FileState, f': FileState)
    requires Inv(f) && f'.next >= f.next
    requires f'.opens.Keys <= f.opens.Keys && forall k | k in f'.opens :: f'.opens[k] == f.opens[k]
    requires f'.locks.Keys <= f.locks.Keys && forall k | k in f'.locks :: f'.locks[k] == f.locks[k]
    ensures Inv(f')
    ensures OwnersMatch(f) ==> OwnersMatch(f')
  {
  }

  /**
    Losing a client keeps every active lock under an active open if and only if no lock under
    one of the client's opens is held by an owner of another client.
   */
  lemma RevokeKeepsLocksOpen(f: FileState, clientid: ClientId)
    requires LocksHaveOpens(f)
    ensures LocksHaveOpens(RevokeClient(f, clientid))
       <==> forall k | k in f.locks && f.locks[k].active && f.opens[f.locks[k].openOther].clientid == clientid ::
              f.locks[k].owner.clientid == clientid
  {
    var f' := RevokeClient(f, clientid);
    if k :| k in f.locks && f.locks[k].active && f.opens[f.locks[k].openOther].clientid == clientid
            && f.locks[k].owner.clientid != clientid {
      assert k in f'.locks && !LockHasOpen(f', f'.locks[k]);
    } else {
      forall k | k in f'.locks && f'.locks[k].active
        ensures LockHasOpen(f', f'.locks[k])
      {
        assert LockHasOpen(f, f.locks[k]);
      }
    }
  }

  lemma InvalidateKeepsLocksOpen(f: FileState, ids: set<ObjectId>)
    requires LocksHaveOpens(f)
    ensures LocksHaveOpens(Invalidate(f, ids))
  {
    var f' := Invalidate(f, ids);
    forall k | k in f'.locks && f'.locks[k].active
      ensures LockHasOpen(f', f'.locks[k])
    {
      assert LockHasOpen(f, f.locks[k]);
    }
  }

  // ---- Steps and runs ----

  datatype Action =
    | OpenFile(obj: ServerObject, owner: StateOwner, access: u32, deny: u32)
    | Confirm(s: Stateid)
    | Close(s: Stateid)
    | Downgrade(s: Stateid, access: u32, deny: u32)
    | TakeLock(clientid: ClientId, s: Stateid, lockOwner: StateOwner, obj: ServerObject, range: LockRange)
    | ExtendLock(clientid: ClientId, s: Stateid, obj: ServerObject, range: LockRange)
    | Unlock(clientid: ClientId, s: Stateid, obj: ServerObject, offset: u64, length: u64)
    | FreeStateid(s: Stateid)
    | LoseClient(clientid: ClientId)
    | MarkRetired(id: ObjectId)
    | Sweep(ids: set<ObjectId>)
    | IssueElsewhere            // a delegation took the next counter
  {
    /** A LOCK request whose lock owner names the requesting client. */
    predicate Honest() {
      TakeLock? ==> lockOwner.clientid == clientid
    }
  }

  ghost function Step(f: FileState, a: Action): FileState {
    match a
    case OpenFile(obj, owner, access, deny) => CreateOpen(f, obj, owner, access, deny).1
    case Confirm(s) => ConfirmOpen(f, s).1
    case Close(s) => CloseOpen(f, s).1
    case Downgrade(s, access, deny) => DowngradeOpen(f, s, access, deny).1
    case TakeLock(clientid, s, owner, obj, r) => LockNew(f, clientid, s, owner, obj, r).1
    case ExtendLock(clientid, s, obj, r) => LockMore(f, clientid, s, obj, r).1
    case Unlock(clientid, s, obj, offset, length) => UnlockRange(f, clientid, s, obj, offset, length).1
    case FreeStateid(s) => Free(f, s).1
    case LoseClient(clientid) => RevokeClient(f, clientid)
    case MarkRetired(id) => f.(retired := f.retired + {id})
    case Sweep(ids) => Invalidate(f, ids)
    case IssueElsewhere => f.(next := f.next + 1)
  }

  ghost function Run(f: FileState, actions: seq<Action>): FileState
    decreases |actions|
  {
    if actions == [] then f else Run(Step(f, actions[0]), actions[1..])
  }

  const EMPTY: FileState := FileState(map[], map[], 1, {})

  lemma OpenStepKeepsInv(f: FileState, a: Action)
    requires Inv(f) && (a.OpenFile? || a.Confirm? || a.Close? || a.Downgrade?)
    ensures Inv(Step(f, a))
  {
    match a
    case OpenFile(obj, owner, access, deny) =>
      assert Step(f, a) == CreateOpen(f, obj, owner, access, deny).1;
      CreateOpenKeeps(f, obj, owner, access, deny);
    case Confirm(s) =>
      assert Step(f, a) == ConfirmOpen(f, s).1;
      ConfirmKeeps(f, s);
    case Close(s) =>
      assert Step(f, a) == CloseOpen(f, s).1;
      CloseKeeps(f, s);
    case Downgrade(s, access, deny) =>
      assert Step(f, a) == DowngradeOpen(f, s, access, deny).1;
      DowngradeKeeps(f, s, access, deny);
  }

  lemma LockStepKeepsInv(f: FileState, a: Action)
    requires Inv(f) && (a.TakeLock? || a.ExtendLock? || a.Unlock?)
    ensures Inv(Step(f, a))
  {
    match a
    case TakeLock(clientid, s, owner, obj, r) =>
      assert Step(f, a) == LockNew(f, clientid, s, owner, obj, r).1;
      LockNewKeeps(f, clientid, s, owner, obj, r);
    case ExtendLock(clientid, s, obj, r) =>
      assert Step(f, a) == LockMore(f, clientid, s, obj, r).1;
      LockMoreKeeps(f, clientid, s, obj, r);
    case Unlock(clientid, s, obj, offset, length) =>
      assert Step(f, a) == UnlockRange(f, clientid, s, obj, offset, length).1;
      UnlockKeeps(f, clientid, s, obj, offset, length);
  }

  predicate Drops(a: Action) {
    a.FreeStateid? || a.LoseClient? || a.MarkRetired? || a.Sweep? || a.IssueElsewhere?
  }

  /** The other steps only drop entries. */
  lemma DropStep(f: FileState, a: Action)
    requires Drops(a)
    ensures var f' := Step(f, a);
            && f'.opens.Keys <= f.opens.Keys && (forall k | k in f'.opens :: f'.opens[k] == f.opens[k])
            && f'.locks.Keys <= f.locks.Keys && (forall k | k in f'.locks :: f'.locks[k] == f.locks[k])
            && f.next <= f'.next && f.retired <= f'.retired
  {
  }

  lemma StepKeepsInv(f: FileState, a: Action)
    requires Inv(f)
    ensures Inv(Step(f, a))
  {
    if a.OpenFile? || a.Confirm? || a.Close? || a.Downgrade? {
      OpenStepKeepsInv(f, a);
    } else if a.TakeLock? || a.ExtendLock? || a.Unlock? {
      LockStepKeepsInv(f, a);
    } else {
      DropStep(f, a);
      DropKeeps(f, Step(f, a));
    }
  }

  lemma FreeKeepsLocksOpen(f: FileState, s: Stateid)
    requires LocksHaveOpens(f)
    ensures LocksHaveOpens(Free(f, s).1)
  {
    var f' := Free(f, s).1;
    forall k | k in f'.locks && f'.locks[k].active
      ensures LockHasOpen(f', f'.locks[k])
    {
      assert LockHasOpen(f, f.locks[k]);
    }
  }

  lemma OpenStepKeepsLocksOpen(f: FileState, a: Action)
    requires Inv(f) && LocksHaveOpens(f) && OwnersMatch(f) && (a.OpenFile? || a.Confirm? || a.Close? || a.Downgrade?)
    ensures LocksHaveOpens(Step(f, a)) && OwnersMatch(Step(f, a))
  {
    match a
    case OpenFile(obj, owner, access, deny) =>
      assert Step(f, a) == CreateOpen(f, obj, owner, access, deny).1;
      CreateOpenKeeps(f, obj, owner, access, deny);
    case Confirm(s) =>
      assert Step(f, a) == ConfirmOpen(f, s).1;
      ConfirmKeeps(f, s);
    case Close(s) =>
      assert Step(f, a) == CloseOpen(f, s).1;
      CloseKeeps(f, s);
    case Downgrade(s, access, deny) =>
      assert Step(f, a) == DowngradeOpen(f, s, access, deny).1;
      DowngradeKeeps(f, s, access, deny);
  }

  lemma LockStepKeepsLocksOpen(f: FileState, a: Action)
    requires Inv(f) && LocksHaveOpens(f) && OwnersMatch(f) && a.Honest() && (a.TakeLock? || a.ExtendLock? || a.Unlock?)
    ensures LocksHaveOpens(Step(f, a)) && OwnersMatch(Step(f, a))
  {
    match a
    case TakeLock(clientid, s, owner, obj, r) =>
      assert Step(f, a) == LockNew(f, clientid, s, owner, obj, r).1;
      LockNewKeeps(f, clientid, s, owner, obj, r);
    case ExtendLock(clientid, s, obj, r) =>
      assert Step(f, a) == LockMore(f, clientid, s, obj, r).1;
      LockMoreKeeps(f, clientid, s, obj, r);
    case Unlock(clientid, s, obj, offset, length) =>
      assert Step(f, a) == UnlockRange(f, clientid, s, obj, offset, length).1;
      UnlockKeeps(f, clientid, s, obj, offset, length);
  }

  lemma DropStepKeepsLocksOpen(f: FileState, a: Action)
    requires Inv(f) && LocksHaveOpens(f) && OwnersMatch(f) && (a.FreeStateid? || a.LoseClient? || a.Sweep?)
    ensures LocksHaveOpens(Step(f, a)) && OwnersMatch(Step(f, a))
  {
    DropStep(f, a);
    DropKeeps(f, Step(f, a));
    match a
    case FreeStateid(s) =>
      assert Step(f, a) == Free(f, s).1;
      FreeKeepsLocksOpen(f, s);
    case LoseClient(clientid) =>
      assert Step(f, a) == RevokeClient(f, clientid);
      RevokeKeepsLocksOpen(f, clientid);
    case Sweep(ids) =>
      assert Step(f, a) == Invalidate(f, ids);
      InvalidateKeepsLocksOpen(f, ids);
  }

  lemma StepKeepsLocksOpen(f: FileState, a: Action)
    requires Inv(f) && LocksHaveOpens(f) && OwnersMatch(f) && a.Honest()
    ensures LocksHaveOpens(Step(f, a)) && OwnersMatch(Step(f, a))
  {
    if a.OpenFile? || a.Confirm? || a.Close? || a.Downgrade? {
      OpenStepKeepsLocksOpen(f, a);
    } else if a.TakeLock? || a.ExtendLock? || a.Unlock? {
      LockStepKeepsLocksOpen(f, a);
    } else if a.FreeStateid? || a.LoseClient? || a.Sweep? {
      DropStepKeepsLocksOpen(f, a);
    }
  }

  lemma {:induction false} RunKeepsInv(f: FileState, actions: seq<Action>)
    requires Inv(f)
    ensures Inv(Run(f, actions))
    decreases |actions|
  {
    if actions != [] {
      StepKeepsInv(f, actions[0]);
      RunKeepsInv(Step(f, actions[0]), actions[1..]);
    }
  }

  lemma {:induction false} RunKeepsLocksOpen(f: FileState, actions: seq<Action>)
    requires Inv(f) && LocksHaveOpens(f) && OwnersMatch(f) && forall i | 0 <= i < |actions| :: actions[i].Honest()
    ensures LocksHaveOpens(Run(f, actions))
    decreases |actions|
  {
    if actions != [] {
      StepKeepsInv(f, actions[0]);
      StepKeepsLocksOpen(f, actions[0]);
      RunKeepsLocksOpen(Step(f, actions[0]), actions[1..]);
    }
  }

  // ---- What clients see, in every run ----

  /** No byte below 2^64-1 is held by two lock owners of which one holds it for writing. */
  lemma NoByteHeldTwice(actions: seq<Action>, a: Other, b: Other, i: nat, j: nat, p: int)
    requires var f := Run(EMPTY, actions);
             && a in f.locks && b in f.locks && f.locks[a].obj == f.locks[b].obj && f.locks[a].owner != f.locks[b].owner
             && i < |f.locks[a].ranges| && j < |f.locks[b].ranges|
             && f.locks[a].ranges[i].Covers(p) && f.locks[b].ranges[j].Covers(p) && p < U64_MAX
    ensures var f := Run(EMPTY, actions);
            !IsWriteLock(f.locks[a].ranges[i].locktype) && !IsWriteLock(f.locks[b].ranges[j].locktype)
  {
    var f := Run(EMPTY, actions);
    RunKeepsInv(EMPTY, actions);
    TypeAtUnique(f.locks[a].ranges, i, p);
    TypeAtUnique(f.locks[b].ranges, j, p);
    assert BytesExclusive(f.locks[a], f.locks[b]);
  }

  /** Two active opens of one object respect each other's deny modes; an owner has one of them. */
  lemma SharesHold(actions: seq<Action>, a: Other, b: Other)
    requires var f := Run(EMPTY, actions);
             && a in f.opens && b in f.opens && a != b && f.opens[a].active && f.opens[b].active
             && f.opens[a].obj == f.opens[b].obj
    ensures var f := Run(EMPTY, actions);
            && !f.opens[a].deny.Meets(f.opens[b].access) && !f.opens[b].deny.Meets(f.opens[a].access)
            && (f.opens[a].clientid, f.opens[a].owner) != (f.opens[b].clientid, f.opens[b].owner)
  {
    RunKeepsInv(EMPTY, actions);
  }

  /** If LOCK requests name their own client, every active lock is under an active open of its object. */
  lemma ActiveLocksHaveOpens(actions: seq<Action>, k: Other)
    requires forall i | 0 <= i < |actions| :: actions[i].Honest()
    requires var f := Run(EMPTY, actions); k in f.locks && f.locks[k].active
    ensures var f := Run(EMPTY, actions); LockHasOpen(f, f.locks[k])
  {
    RunKeepsLocksOpen(EMPTY, actions);
  }

  /** Without that condition it fails: a lock owner naming client 9 outlives the open of client 1. */
  lemma ForeignOwnerOutlivesOpen()
    ensures var f := Run(EMPTY, ForeignOwnerRun());
            Other(2, 9) in f.locks && f.locks[Other(2, 9)].active && !LockHasOpen(f, f.locks[Other(2, 9)])
  {
    var acts := ForeignOwnerRun();
    var k := Other(1, 1);
    var open := Open(Fs(5), 1, [], 1, true, Mask(true, true), Mask(false, false));
    var f1 := EMPTY.(opens := map[k := open], next := 2);
    assert Step(EMPTY, acts[0]) == f1 by {
      assert CreateOpen(EMPTY, Fs(5), StateOwner(1, []), 3, 0).0 == Success(Stateid(1, k));
    }
    var lock := Lock(Fs(5), StateOwner(9, []), k, [LockRange(WriteLt, 0, 10)], true, 1);
    var f2 := f1.(locks := map[Other(2, 9) := lock], next := 3);
    assert Step(f1, acts[1]) == f2;
    var f3 := f2.(opens := map[]);
    assert Step(f2, acts[2]) == f3;
    assert Run(f2, acts[2..]) == f3 by {
      assert acts[2..][1..] == [] && acts[2..][0] == acts[2];
    }
    assert acts[1..][0] == acts[1] && acts[1..][1..] == acts[2..];
  }

  function ForeignOwnerRun(): seq<Action> {
    [OpenFile(Fs(5), StateOwner(1, []), 3, 0),
     TakeLock(1, Stateid(1, Other(1, 1)), StateOwner(9, []), Fs(5), LockRange(WriteLt, 0, 10)),
     LoseClient(1)]
  }

  // ---- Stateids only move forward ----

  /**
    Between two states of a run: the counter grows; a surviving state keeps its object and its
    seqid does not fall; a closed open stays closed; nothing issued comes back once it is gone.
   */
  ghost predicate Forward(f: FileState, f': FileState) {
    && f.next <= f'.next
    && (forall k | k in f.opens && k in f'.opens :: ForwardOpen(f.opens[k], f'.opens[k]))
    && (forall k | k in f.locks && k in f'.locks :: ForwardLock(f.locks[k], f'.locks[k]))
    && (forall k | k in f'.opens && k !in f.opens :: k.counter >= f.next)
    && (forall k | k in f'.locks && k !in f.locks :: k.counter >= f.next)
    && f.retired <= f'.retired
  }

  ghost predicate ForwardOpen(o: Open, o': Open) {
    o'.obj == o.obj && o'.clientid == o.clientid && o'.seqid >= o.seqid && (o'.active ==> o.active)
    && (o'.seqid == o.seqid ==> o' == o)
  }

  ghost predicate ForwardLock(l: Lock, l': Lock) {
    l'.obj == l.obj && l'.owner == l.owner && l'.openOther == l.openOther && l'.seqid >= l.seqid
    && (l'.seqid == l.seqid ==> l' == l)
  }

  /** A step that changes at most one open, and bumps its seqid, is a step forward. */
  lemma PutOpenForward(f: FileState, f': FileState, k: Other)
    requires f'.locks == f.locks && f'.retired == f.retired && f.next <= f'.next
    requires k in f'.opens && f'.opens == f.opens[k := f'.opens[k]]
    requires if k in f.opens then ForwardOpen(f.opens[k], f'.opens[k]) else k.counter >= f.next
    ensures Forward(f, f')
  {
  }

  lemma PutLockForward(f: FileState, f': FileState, k: Other)
    requires f'.opens == f.opens && f'.retired == f.retired && f.next <= f'.next
    requires k in f'.locks && f'.locks == f.locks[k := f'.locks[k]]
    requires if k in f.locks then ForwardLock(f.locks[k], f'.locks[k]) else k.counter >= f.next
    ensures Forward(f, f')
  {
  }

  lemma OpenForward(f: FileState, obj: ServerObject, owner: StateOwner, access: u32, deny: u32)
    requires Inv(f)
    ensures Forward(f, CreateOpen(f, obj, owner, access, deny).1)
  {
    var (res, f') := CreateOpen(f, obj, owner, access, deny);
    if res.Success? {
      CreateOpenFits(f, obj, owner, access, deny);
      PutOpenForward(f, f', res.value.other);
    }
  }

  lemma LockNewForward(f: FileState, clientid: ClientId, s: Stateid, owner: StateOwner, obj: ServerObject, r: LockRange)
    requires KeysIssued(f)
    ensures Forward(f, LockNew(f, clientid, s, owner, obj, r).1)
  {
    var (res, f') := LockNew(f, clientid, s, owner, obj, r);
    if res.Success? {
      PutLockForward(f, f', res.value.other);
    }
  }

  lemma LockMoreForward(f: FileState, clientid: ClientId, s: Stateid, obj: ServerObject, r: LockRange)
    ensures Forward(f, LockMore(f, clientid, s, obj, r).1)
  {
    var (res, f') := LockMore(f, clientid, s, obj, r);
    if res.Success? {
      PutLockForward(f, f', res.value.other);
    }
  }

  lemma UnlockForward(f: FileState, clientid: ClientId, s: Stateid, obj: ServerObject, offset: u64, length: u64)
    ensures Forward(f, UnlockRange(f, clientid, s, obj, offset, length).1)
  {
    var (res, f') := UnlockRange(f, clientid, s, obj, offset, length);
    if res.Success? {
      PutLockForward(f, f', res.value.other);
    }
  }

  lemma OpenChangeForward(f: FileState, res: Result<Stateid>, f': FileState, s: Stateid)
    requires (res, f') == ConfirmOpen(f, s) || (res, f') == CloseOpen(f, s)
          || exists access, deny :: (res, f') == DowngradeOpen(f, s, access, deny)
    ensures Forward(f, f')
  {
    if res.Success? {
      PutOpenForward(f, f', s.other);
    }
  }

  lemma DropForward(f: FileState, f': FileState)
    requires f'.opens.Keys <= f.opens.Keys && forall k | k in f'.opens :: f'.opens[k] == f.opens[k]
    requires f'.locks.Keys <= f.locks.Keys && forall k | k in f'.locks :: f'.locks[k] == f.locks[k]
    requires f.next <= f'.next && f.retired <= f'.retired
    ensures Forward(f, f')
  {
  }

  lemma StepForward(f: FileState, a: Action)
    requires Inv(f)
    ensures Forward(f, Step(f, a))
  {
    if a.OpenFile? {
      OpenForward(f, a.obj, a.owner, a.access, a.deny);
    } else if a.Confirm? {
      OpenChangeForward(f, ConfirmOpen(f, a.s).0, Step(f, a), a.s);
    } else if a.Close? {
      OpenChangeForward(f, CloseOpen(f, a.s).0, Step(f, a), a.s);
    } else if a.Downgrade? {
      OpenChangeForward(f, DowngradeOpen(f, a.s, a.access, a.deny).0, Step(f, a), a.s);
    } else if a.TakeLock? {
      LockNewForward(f, a.clientid, a.s, a.lockOwner, a.obj, a.range);
    } else if a.ExtendLock? {
      LockMoreForward(f, a.clientid, a.s, a.obj, a.range);
    } else if a.Unlock? {
      UnlockForward(f, a.clientid, a.s, a.obj, a.offset, a.length);
    } else {
      DropStep(f, a);
      DropForward(f, Step(f, a));
    }
  }

  /** Only OPEN and the first LOCK of an owner add an entry. */
  lemma StepAddsNothing(f: FileState, a: Action)
    requires !a.OpenFile? && !a.TakeLock?
    ensures Step(f, a).opens.Keys <= f.opens.Keys && Step(f, a).locks.Keys <= f.locks.Keys
  {
    if a.ExtendLock? {
      assert Step(f, a) == LockMore(f, a.clientid, a.s, a.obj, a.range).1;
    } else if a.Unlock? {
      assert Step(f, a) == UnlockRange(f, a.clientid, a.s, a.obj, a.offset, a.length).1;
    } else if a.Confirm? || a.Close? || a.Downgrade? {
      assert Step(f, a).locks == f.locks;
    } else {
      DropStep(f, a);
    }
  }

  lemma StepKeepsRetired(f: FileState, a: Action)
    requires !a.MarkRetired?
    ensures Step(f, a).retired == f.retired
  {
  }

  lemma ForwardTransitive(f: FileState, g: FileState, h: FileState)
    requires KeysIssued(f) && Forward(f, g) && Forward(g, h)
    ensures Forward(f, h)
  {
    forall k | k in f.opens && k in h.opens
      ensures ForwardOpen(f.opens[k], h.opens[k])
    {
      assert k.counter < f.next && k in g.opens;
    }
    forall k | k in f.locks && k in h.locks
      ensures ForwardLock(f.locks[k], h.locks[k])
    {
      assert k.counter < f.next && k in g.locks;
    }
  }

  lemma {:induction false} RunForward(f: FileState, actions: seq<Action>)
    requires Inv(f)
    ensures Forward(f, Run(f, actions))
    decreases |actions|
  {
    if actions != [] {
      var g := Step(f, actions[0]);
      StepKeepsInv(f, actions[0]);
      StepForward(f, actions[0]);
      RunForward(g, actions[1..]);
      ForwardTransitive(f, g, Run(f, actions));
    }
  }

  /** A stateid that was issued and no longer resolves, because it was closed, freed or swept, never will. */
  lemma DeadStateidStaysDead(f: FileState, actions: seq<Action>, k: Other, clientid: Option<ClientId>, seqid: nat)
    requires Inv(f) && k.counter < f.next && k !in f.locks && (k in f.opens ==> !f.opens[k].active)
    ensures Resolve(Run(f, actions), clientid, Stateid(seqid, k)).Failure?
  {
    RunForward(f, actions);
  }

  /** After any later change of a state, every earlier non-zero seqid is refused as old. */
  lemma EarlierSeqidsRefused(f: FileState, actions: seq<Action>, k: Other, clientid: Option<ClientId>, q: nat)
    requires Inv(f) && k in f.opens && k in Run(f, actions).opens
    requires 0 < q <= f.opens[k].seqid && Run(f, actions).opens[k] != f.opens[k]
    ensures Resolve(Run(f, actions), clientid, Stateid(q, k)) == Failure(OldStateid)
  {
    RunForward(f, actions);
  }

  lemma EarlierLockSeqidsRefused(f: FileState, actions: seq<Action>, k: Other, clientid: Option<ClientId>, q: nat)
    requires Inv(f) && k in f.locks && k in Run(f, actions).locks
    requires 0 < q <= f.locks[k].seqid && Run(f, actions).locks[k] != f.locks[k]
    ensures Resolve(Run(f, actions), clientid, Stateid(q, k)) == Failure(OldStateid)
  {
    RunKeepsInv(f, actions);
    RunForward(f, actions);
  }

  // ---- Retirement ----

  /** No open and no lock is on an object that belongs to ids. */
  ghost predicate ClearOf(f: FileState, ids: set<ObjectId>) {
    && (forall k | k in f.opens :: f.opens[k].obj.Base() !in ids)
    && (forall k | k in f.locks :: f.locks[k].obj.Base() !in ids)
  }

  /** Marked objects that have been swept never get an open or a lock again. */
  lemma {:induction false} RetiredStayClear(f: FileState, actions: seq<Action>, ids: set<ObjectId>)
    requires Inv(f) && ids <= f.retired && ClearOf(f, ids)
    ensures ClearOf(Run(f, actions), ids)
    decreases |actions|
  {
    if actions != [] {
      StepKeepsInv(f, actions[0]);
      StepForward(f, actions[0]);
      StepStaysClear(f, actions[0], ids);
      RetiredStayClear(Step(f, actions[0]), actions[1..], ids);
    }
  }

  lemma StepStaysClear(f: FileState, a: Action, ids: set<ObjectId>)
    requires Inv(f) && ids <= f.retired && ClearOf(f, ids)
    ensures ClearOf(Step(f, a), ids)
  {
    if Drops(a) {
      DropStep(f, a);
    } else {
      StepForward(f, a);
      NewStateIsUnretired(f, a);
    }
  }

  /** A step gives new state only to objects that are not retired. */
  lemma NewStateIsUnretired(f: FileState, a: Action)
    requires !Drops(a)
    ensures forall k | k in Step(f, a).opens && k !in f.opens :: Step(f, a).opens[k].obj.Base() !in f.retired
    ensures forall k | k in Step(f, a).locks && k !in f.locks :: Step(f, a).locks[k].obj.Base() !in f.retired
  {
  }
}
