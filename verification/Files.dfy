/**
  Opens and byte-range locks. A value of type FileState is what the two tables hold; each
  operation is a function to its result and the tables it leaves behind.
 */
module Files {
  import opened NfsTypes
  import opened Stateids
  import opened LockRanges

  datatype StateOwner = StateOwner(clientid: ClientId, owner: Bytes)

  datatype Open = Open(
    obj: ServerObject, clientid: ClientId, owner: Bytes, seqid: nat, active: bool, access: Mask, deny: Mask)
  {
    predicate OwnedBy(o: StateOwner) {
      clientid == o.clientid && owner == o.owner
    }
  }

  datatype Lock = Lock(
    obj: ServerObject, owner: StateOwner, openOther: Other, ranges: seq<LockRange>, active: bool, seqid: nat)

  /** `next` is the stateid counter, shared with delegations; `retired` the permanently retired objects. */
  datatype FileState = FileState(opens: map<Other, Open>, locks: map<Other, Lock>, next: nat, retired: set<ObjectId>)

  /** The two mode bits of a share word. */
  datatype Mask = Mask(read: bool, write: bool) {
    predicate Meets(m: Mask) {
      (read && m.read) || (write && m.write)
    }

    function Or(m: Mask): Mask {
      Mask(read || m.read, write || m.write)
    }

    predicate Within(m: Mask) {
      (read ==> m.read) && (write ==> m.write)
    }
  }

  /** The low two bits of a word (OPEN4_SHARE_ACCESS_BOTH, OPEN4_SHARE_DENY_BOTH). */
  function ModeBits(word: u32): Mask {
    Mask(word % 2 == 1, word / 2 % 2 == 1)
  }

  /** The word with the bits of OPEN4_SHARE_ACCESS_WANT_DELEG_MASK (0xFF00) cleared. */
  function WithoutWant(word: u32): u32 {
    word / 0x1_0000 * 0x1_0000 + word % 0x100
  }

  // ---- Share reservations ----

  predicate ShareConflict(a: Open, access: Mask, deny: Mask) {
    a.deny.Meets(access) || deny.Meets(a.access)
  }

  predicate IsOwnOpen(f: FileState, k: Other, obj: ServerObject, owner: StateOwner) {
    k in f.opens && f.opens[k].active && f.opens[k].obj == obj && f.opens[k].OwnedBy(owner)
  }

  ghost predicate HasOwnOpen(f: FileState, obj: ServerObject, owner: StateOwner) {
    exists k :: IsOwnOpen(f, k, obj, owner)
  }

  /** Some active open of obj other than `own` stands in the way of this access and deny. */
  ghost predicate ShareDeniedBy(f: FileState, obj: ServerObject, own: Option<Other>, access: Mask, deny: Mask) {
    exists k | k in f.opens ::
      f.opens[k].active && own != Some(k) && f.opens[k].obj == obj && ShareConflict(f.opens[k], access, deny)
  }

  /** Two active opens of one object never stand in each other's way. */
  ghost predicate SharesRespected(f: FileState) {
    forall a, b | a in f.opens && b in f.opens && a != b && f.opens[a].active && f.opens[b].active
                  && f.opens[a].obj == f.opens[b].obj ::
      !ShareConflict(f.opens[a], f.opens[b].access, f.opens[b].deny)
  }

  /** An owner has at most one active open of an object. */
  ghost predicate OneOpenPerOwner(f: FileState) {
    forall a, b | a in f.opens && b in f.opens && f.opens[a].active && f.opens[b].active
                  && f.opens[a].obj == f.opens[b].obj && f.opens[a].clientid == f.opens[b].clientid
                  && f.opens[a].owner == f.opens[b].owner ::
      a == b
  }

  /** Every key was issued, and the two tables share none. */
  ghost predicate KeysIssued(f: FileState) {
    && (forall k | k in f.opens :: k.counter < f.next)
    && (forall k | k in f.locks :: k.counter < f.next)
    && f.opens.Keys !! f.locks.Keys
  }

  // ---- Locks ----

  ghost predicate RangesSound(f: FileState) {
    forall k | k in f.locks :: Canonical(f.locks[k].ranges) && (f.locks[k].active <==> f.locks[k].ranges != [])
  }

  /** Both lock types cannot be held on one byte by two owners. */
  predicate TypesClash(a: Option<LockType>, b: Option<LockType>) {
    a.Some? && b.Some? && (IsWriteLock(a.value) || IsWriteLock(b.value))
  }

  ghost predicate BytesExclusive(a: Lock, b: Lock) {
    forall p: int | p < U64_MAX :: !TypesClash(TypeAt(a.ranges, p), TypeAt(b.ranges, p))
  }

  /** No byte below 2^64-1 is held by two owners of which one has it for writing. */
  ghost predicate LocksExclusive(f: FileState) {
    forall a, b | a in f.locks && b in f.locks && f.locks[a].obj == f.locks[b].obj
                  && f.locks[a].owner != f.locks[b].owner ::
      BytesExclusive(f.locks[a], f.locks[b])
  }

  /** The open a lock was taken under, while it is in the table, is of the same object. */
  ghost predicate LocksMatchOpens(f: FileState) {
    forall k | k in f.locks :: f.locks[k].openOther.counter < f.next
      && (f.locks[k].openOther in f.opens ==> f.opens[f.locks[k].openOther].obj == f.locks[k].obj)
  }

  ghost predicate LockHasOpen(f: FileState, l: Lock) {
    l.openOther in f.opens && f.opens[l.openOther].active && f.opens[l.openOther].obj == l.obj
  }

  /** Every active lock is under an active open of the same object. */
  ghost predicate LocksHaveOpens(f: FileState) {
    forall k | k in f.locks && f.locks[k].active :: LockHasOpen(f, f.locks[k])
  }

  /** The lock owner belongs to the client of the open. */
  ghost predicate OwnersMatch(f: FileState) {
    forall k | k in f.locks && f.locks[k].openOther in f.opens ::
      f.opens[f.locks[k].openOther].clientid == f.locks[k].owner.clientid
  }

  ghost predicate Inv(f: FileState) {
    && KeysIssued(f) && SharesRespected(f) && OneOpenPerOwner(f)
    && RangesSound(f) && LocksExclusive(f) && LocksMatchOpens(f)
  }

  // ---- OPEN ----

  ghost function OwnOpen(f: FileState, obj: ServerObject, owner: StateOwner): (own: Option<Other>)
    ensures own.Some? ==> IsOwnOpen(f, own.value, obj, owner)
    ensures own.None? ==> !HasOwnOpen(f, obj, owner)
  {
    if HasOwnOpen(f, obj, owner) then
      var k :| IsOwnOpen(f, k, obj, owner);
      Some(k)
    else None
  }

  /** What the owner will hold: the union with its open, if it has one. */
  function Union(f: FileState, own: Option<Other>, access: Mask, deny: Mask): (Mask, Mask)
    requires own.Some? ==> own.value in f.opens
  {
    if own.Some? then (f.opens[own.value].access.Or(access), f.opens[own.value].deny.Or(deny)) else (access, deny)
  }

  ghost function CreateOpen(f: FileState, obj: ServerObject, owner: StateOwner,
                            shareAccess: u32, shareDeny: u32): (Result<Stateid>, FileState)
  {
    var access, deny := ModeBits(shareAccess), ModeBits(shareDeny);
    var own := OwnOpen(f, obj, owner);
    var want := Union(f, own, access, deny);
    if !(access.read || access.write) || shareDeny > 3 then (Failure(Inval), f)
    else if obj.Base() in f.retired then (Failure(Status.Stale), f)
    else if ShareDeniedBy(f, obj, own, want.0, want.1) then (Failure(ShareDenied), f)
    else if own.Some? then
      var open := f.opens[own.value];
      (Success(Stateid(open.seqid + 1, own.value)),
       f.(opens := f.opens[own.value := open.(access := want.0, deny := want.1, seqid := open.seqid + 1)]))
    else
      var k := Other(f.next, owner.clientid);
      (Success(Stateid(1, k)),
       f.(opens := f.opens[k := Open(obj, owner.clientid, owner.owner, 1, true, access, deny)], next := f.next + 1))
  }

  /** An open that may be put in the table under k: nothing stands in its way. */
  ghost predicate Fits(f: FileState, k: Other, open: Open) {
    && (open.active ==> !ShareDeniedBy(f, open.obj, Some(k), open.access, open.deny))
    && (open.active ==> forall b | b != k :: !IsOwnOpen(f, b, open.obj, StateOwner(open.clientid, open.owner)))
    && (k in f.opens ==> f.opens[k].obj == open.obj)
  }

  lemma PutKeepsShares(f: FileState, k: Other, open: Open)
    requires SharesRespected(f) && OneOpenPerOwner(f) && Fits(f, k, open)
    ensures SharesRespected(f.(opens := f.opens[k := open])) && OneOpenPerOwner(f.(opens := f.opens[k := open]))
  {
    forall b | b in f.opens && b != k && open.active && f.opens[b].active && f.opens[b].obj == open.obj
      ensures !ShareConflict(f.opens[b], open.access, open.deny)
      ensures !IsOwnOpen(f, b, open.obj, StateOwner(open.clientid, open.owner))
    {
    }
  }

  lemma PutKeepsInv(f: FileState, k: Other, open: Open, next: nat)
    requires Inv(f) && Fits(f, k, open) && f.next <= next && k.counter < next
    requires k in f.opens || k.counter == f.next
    ensures Inv(f.(opens := f.opens[k := open], next := next))
  {
    PutKeepsShares(f, k, open);
  }

  lemma CreateOpenKeeps(f: FileState, obj: ServerObject, owner: StateOwner, access: u32, deny: u32)
    requires Inv(f)
    ensures Inv(CreateOpen(f, obj, owner, access, deny).1)
    ensures LocksHaveOpens(f) ==> LocksHaveOpens(CreateOpen(f, obj, owner, access, deny).1)
    ensures OwnersMatch(f) ==> OwnersMatch(CreateOpen(f, obj, owner, access, deny).1)
  {
    var (res, f') := CreateOpen(f, obj, owner, access, deny);
    if res.Success? {
      CreateOpenFits(f, obj, owner, access, deny);
      PutKeepsInv(f, res.value.other, f'.opens[res.value.other], f'.next);
    }
  }

  lemma CreateOpenFits(f: FileState, obj: ServerObject, owner: StateOwner, access: u32, deny: u32)
    requires KeysIssued(f) && OneOpenPerOwner(f) && CreateOpen(f, obj, owner, access, deny).0.Success?
    ensures var (res, f') := CreateOpen(f, obj, owner, access, deny);
            var k := res.value.other;
            && k in f'.opens && f' == f.(opens := f.opens[k := f'.opens[k]], next := f'.next)
            && f.next <= f'.next && k.counter < f'.next && (k in f.opens || k.counter == f.next)
            && Fits(f, k, f'.opens[k])
            && (k in f.opens ==> f'.opens[k].clientid == f.opens[k].clientid && f.opens[k].active && f'.opens[k].active)
  {
    var (res, f') := CreateOpen(f, obj, owner, access, deny);
    var k, own := res.value.other, OwnOpen(f, obj, owner);
    var open := f'.opens[k];
    assert ShareDeniedBy(f, obj, Some(k), open.access, open.deny) ==> ShareDeniedBy(f, obj, own, open.access, open.deny);
    assert StateOwner(open.clientid, open.owner) == owner;
    forall b | b != k
      ensures !IsOwnOpen(f, b, obj, owner)
    {
      assert own.None? ==> !IsOwnOpen(f, b, obj, owner);
    }
  }

  // ---- CLOSE, OPEN_CONFIRM, OPEN_DOWNGRADE ----

  ghost predicate HoldsLocks(f: FileState, open: Other) {
    exists k | k in f.locks :: f.locks[k].active && f.locks[k].openOther == open
  }

  ghost function CloseOpen(f: FileState, s: Stateid): (Result<Stateid>, FileState) {
    if s.other !in f.opens then (Failure(BadStateid), f)
    else
      var open := f.opens[s.other];
      if ValidateSeq(open.seqid, s.seqid) != Ok then (Failure(ValidateSeq(open.seqid, s.seqid)), f)
      else if !open.active then (Failure(BadStateid), f)
      else if HoldsLocks(f, s.other) then (Failure(LocksHeld), f)
      else (Success(Stateid(open.seqid + 1, s.other)),
            f.(opens := f.opens[s.other := open.(active := false, seqid := open.seqid + 1)]))
  }

  function ConfirmOpen(f: FileState, s: Stateid): (Result<Stateid>, FileState) {
    if s.other !in f.opens || !f.opens[s.other].active then (Failure(BadStateid), f)
    else
      var open := f.opens[s.other];
      if ValidateSeq(open.seqid, s.seqid) != Ok then (Failure(ValidateSeq(open.seqid, s.seqid)), f)
      else (Success(Stateid(open.seqid + 1, s.other)), f.(opens := f.opens[s.other := open.(seqid := open.seqid + 1)]))
  }

  function DowngradeOpen(f: FileState, s: Stateid, shareAccess: u32, shareDeny: u32): (Result<Stateid>, FileState) {
    var word := WithoutWant(shareAccess);
    if !(1 <= word <= 3) || shareDeny > 3 then (Failure(Inval), f)
    else if s.other !in f.opens then (Failure(BadStateid), f)
    else
      var open, access, deny := f.opens[s.other], ModeBits(word), ModeBits(shareDeny);
      if ValidateSeq(open.seqid, s.seqid) != Ok then (Failure(ValidateSeq(open.seqid, s.seqid)), f)
      else if !open.active then (Failure(BadStateid), f)
      else if !access.Within(open.access) || !deny.Within(open.deny) then (Failure(Inval), f)
      else (Success(Stateid(open.seqid + 1, s.other)),
            f.(opens := f.opens[s.other := open.(access := access, deny := deny, seqid := open.seqid + 1)]))
  }

  lemma DowngradeKeeps(f: FileState, s: Stateid, access: u32, deny: u32)
    requires Inv(f)
    ensures Inv(DowngradeOpen(f, s, access, deny).1)
    ensures LocksHaveOpens(f) ==> LocksHaveOpens(DowngradeOpen(f, s, access, deny).1)
    ensures OwnersMatch(f) ==> OwnersMatch(DowngradeOpen(f, s, access, deny).1)
  {
    var (res, f') := DowngradeOpen(f, s, access, deny);
    if res.Success? {
      var was, now := f.opens[s.other], f'.opens[s.other];
      forall b | b in f.opens && b != s.other && f.opens[b].active && f.opens[b].obj == was.obj
        ensures !ShareConflict(f.opens[b], now.access, now.deny)
      {
        assert !ShareConflict(f.opens[b], was.access, was.deny);
      }
      PutKeepsInv(f, s.other, now, f.next);
    }
  }

  lemma CloseKeeps(f: FileState, s: Stateid)
    requires Inv(f)
    ensures Inv(CloseOpen(f, s).1)
    ensures LocksHaveOpens(f) ==> LocksHaveOpens(CloseOpen(f, s).1)
    ensures OwnersMatch(f) ==> OwnersMatch(CloseOpen(f, s).1)
  {
    var (res, f') := CloseOpen(f, s);
    if res.Success? {
      PutKeepsInv(f, s.other, f'.opens[s.other], f.next);
    }
  }

  lemma ConfirmKeeps(f: FileState, s: Stateid)
    requires Inv(f)
    ensures Inv(ConfirmOpen(f, s).1)
    ensures LocksHaveOpens(f) ==> LocksHaveOpens(ConfirmOpen(f, s).1)
    ensures OwnersMatch(f) ==> OwnersMatch(ConfirmOpen(f, s).1)
  {
    var (res, f') := ConfirmOpen(f, s);
    if res.Success? {
      PutKeepsInv(f, s.other, f'.opens[s.other], f.next);
    }
  }

  /**
    An upgrade can be undone: OPEN by an owner that has the file open, then OPEN_DOWNGRADE back to
    the share it had, leaves every open as it was, but for the seqid, which has moved by two.
   */
  lemma UpgradeThenDowngrade(f: FileState, obj: ServerObject, owner: StateOwner, access: u32, deny: u32, k: Other,
                             backAccess: u32, backDeny: u32)
    requires OneOpenPerOwner(f) && IsOwnOpen(f, k, obj, owner)
    requires CreateOpen(f, obj, owner, access, deny).0.Success?
    requires 1 <= WithoutWant(backAccess) <= 3 && ModeBits(WithoutWant(backAccess)) == f.opens[k].access
    requires backDeny <= 3 && ModeBits(backDeny) == f.opens[k].deny
    ensures var (s, up) := CreateOpen(f, obj, owner, access, deny);
            var (back, down) := DowngradeOpen(up, s.value, backAccess, backDeny);
            && s.value.other == k && ModeBits(access).Within(up.opens[k].access) && ModeBits(deny).Within(up.opens[k].deny)
            && back.Success? && down == f.(opens := f.opens[k := f.opens[k].(seqid := f.opens[k].seqid + 2)])
  {
    assert HasOwnOpen(f, obj, owner);
    var j := OwnOpen(f, obj, owner).value;
    assert IsOwnOpen(f, j, obj, owner) && j == k;
    var (s, up) := CreateOpen(f, obj, owner, access, deny);
    var down := DowngradeOpen(up, s.value, backAccess, backDeny).1;
    assert down.opens == f.opens[k := f.opens[k].(seqid := f.opens[k].seqid + 2)];
  }

  // ---- Resolving a stateid ----

  datatype Resolved = ResolvedOpen(open: Open) | ResolvedLock(lock: Lock, under: Open)

  /** The open or lock a concrete stateid stands for, if it belongs to the client. */
  function Resolve(f: FileState, clientid: Option<ClientId>, s: Stateid): Result<Resolved> {
    if s.other in f.opens then
      var open := f.opens[s.other];
      if ValidateSeq(open.seqid, s.seqid) != Ok then Failure(ValidateSeq(open.seqid, s.seqid))
      else if !open.active || (clientid.Some? && open.clientid != clientid.value) then Failure(BadStateid)
      else Success(ResolvedOpen(open))
    else if s.other in f.locks then
      var lock := f.locks[s.other];
      if ValidateSeq(lock.seqid, s.seqid) != Ok then Failure(ValidateSeq(lock.seqid, s.seqid))
      else if clientid.Some? && lock.owner.clientid != clientid.value then Failure(BadStateid)
      else if lock.openOther !in f.opens || !f.opens[lock.openOther].active then Failure(BadStateid)
      else if clientid.Some? && f.opens[lock.openOther].clientid != clientid.value then Failure(BadStateid)
      else Success(ResolvedLock(lock, f.opens[lock.openOther]))
    else Failure(BadStateid)
  }

  // ---- LOCK and LOCKU ----

  /** A range of l stands in the way of the request. */
  predicate RangeConflicts(q: LockRange, r: LockRange) {
    LocksOverlap(q.offset, q.length, r.offset, r.length) && (IsWriteLock(q.locktype) || IsWriteLock(r.locktype))
  }

  predicate LockInTheWay(l: Lock, obj: ServerObject, owner: StateOwner, r: LockRange) {
    l.active && l.obj == obj && l.owner != owner && exists i | 0 <= i < |l.ranges| :: RangeConflicts(l.ranges[i], r)
  }

  ghost predicate LockDeniedBy(f: FileState, obj: ServerObject, owner: StateOwner, r: LockRange, ignore: Option<Other>) {
    exists k | k in f.locks :: ignore != Some(k) && LockInTheWay(f.locks[k], obj, owner, r)
  }

  /** LOCK with a new lock owner, as one step. */
  ghost function LockNew(f: FileState, clientid: ClientId, open: Stateid, owner: StateOwner, obj: ServerObject, r: LockRange)
    : (Result<Stateid>, FileState)
  {
    if !r.Bounded() then (Failure(Inval), f)
    else match Resolve(f, Some(clientid), open)
      case Failure(e) => (Failure(e), f)
      case Success(found) =>
        if !found.ResolvedOpen? || found.open.obj != obj then (Failure(Openmode), f)
        else if LockDeniedBy(f, obj, owner, r, None) then (Failure(Denied), f)
        else if obj.Base() in f.retired then (Failure(Status.Stale), f)
        else
          var k := Other(f.next, owner.clientid);
          (Success(Stateid(1, k)),
           f.(locks := f.locks[k := Lock(obj, owner, open.other, [r], true, 1)], next := f.next + 1))
  }

  /** LOCK with an existing lock owner, as one step. */
  ghost function LockMore(f: FileState, clientid: ClientId, s: Stateid, obj: ServerObject, r: LockRange)
    : (Result<Stateid>, FileState)
  {
    if !r.Bounded() then (Failure(Inval), f)
    else match Resolve(f, Some(clientid), s)
      case Failure(e) => (Failure(e), f)
      case Success(found) =>
        if !found.ResolvedLock? || found.lock.obj != obj then (Failure(BadStateid), f)
        else if LockDeniedBy(f, obj, found.lock.owner, r, Some(s.other)) then (Failure(Denied), f)
        else
          var l := found.lock;
          (Success(Stateid(l.seqid + 1, s.other)),
           f.(locks := f.locks[s.other := l.(ranges := Replaced(l.ranges, r), active := true, seqid := l.seqid + 1)]))
  }

  function UnlockRange(f: FileState, clientid: ClientId, s: Stateid, obj: ServerObject, offset: u64, length: u64)
    : (Result<Stateid>, FileState)
  {
    match Resolve(f, Some(clientid), s)
    case Failure(e) => (Failure(e), f)
    case Success(found) =>
      if !found.ResolvedLock? || found.lock.obj != obj then (Failure(BadStateid), f)
      else if !ValidBounds(offset, length) then (Failure(Inval), f)
      else
        var l := found.lock;
        var left := Unlocked(l.ranges, offset, length);
        (Success(Stateid(l.seqid + 1, s.other)),
         f.(locks := f.locks[s.other := l.(ranges := left, active := left != [], seqid := l.seqid + 1)]))
  }

  lemma SingleRange(r: LockRange, p: int)
    requires r.Bounded()
    ensures Canonical([r]) && TypeAt([r], p) == if r.Covers(p) then Some(r.locktype) else None
  {
  }

  /** A lock that is not in the way of r shares no clashing byte with r. */
  lemma NotInTheWay(l: Lock, r: LockRange, p: int)
    requires r.Bounded() && Canonical(l.ranges) && p < U64_MAX && r.Covers(p)
    requires forall i | 0 <= i < |l.ranges| :: !RangeConflicts(l.ranges[i], r)
    ensures !TypesClash(TypeAt(l.ranges, p), Some(r.locktype))
  {
    if TypeAt(l.ranges, p).Some? {
      var i := TypeAtWitness(l.ranges, p);
      assert !RangeConflicts(l.ranges[i], r);
    }
  }

  /** A point update with r keeps two owners apart if the other one's lock is not in the way. */
  lemma UpdateExclusive(a: Lock, b: Lock, now: Lock, r: LockRange)
    requires r.Bounded() && Canonical(b.ranges) && BytesExclusive(a, b)
    requires forall i | 0 <= i < |b.ranges| :: !RangeConflicts(b.ranges[i], r)
    requires forall p | p < U64_MAX :: TypeAt(now.ranges, p) == if r.Covers(p) then Some(r.locktype) else TypeAt(a.ranges, p)
    ensures BytesExclusive(now, b) && BytesExclusive(b, now)
  {
    forall p: int | p < U64_MAX
      ensures !TypesClash(TypeAt(now.ranges, p), TypeAt(b.ranges, p))
    {
      if r.Covers(p) {
        NotInTheWay(b, r, p);
      }
    }
  }

  /** Putting a lock state in the table keeps everything but exclusion. */
  lemma PutLockKeeps(f: FileState, k: Other, now: Lock, next: nat)
    requires Inv(f) && f.next <= next && k.counter < next && (k in f.locks || k.counter == f.next)
    requires Canonical(now.ranges) && (now.active <==> now.ranges != []) && now.openOther.counter < next
    requires now.openOther in f.opens && f.opens[now.openOther].obj == now.obj
    requires LocksExclusive(f.(locks := f.locks[k := now]))
    ensures Inv(f.(locks := f.locks[k := now], next := next))
  {
    var f' := f.(locks := f.locks[k := now], next := next);
    assert LocksExclusive(f');
    assert SharesRespected(f') && OneOpenPerOwner(f');
  }

  /** What LOCK leaves behind in either form: one lock state with a point update. */
  lemma LockKeepsExclusive(f: FileState, k: Other, was: Lock, now: Lock, r: LockRange)
    requires Inv(f) && r.Bounded() && was.obj == now.obj && was.owner == now.owner
    requires if k in f.locks then f.locks[k] == was else was.ranges == []
    requires !LockDeniedBy(f, now.obj, now.owner, r, Some(k))
    requires forall p | p < U64_MAX :: TypeAt(now.ranges, p) == if r.Covers(p) then Some(r.locktype) else TypeAt(was.ranges, p)
    ensures LocksExclusive(f.(locks := f.locks[k := now]))
  {
    forall b | b in f.locks && b != k && f.locks[b].obj == now.obj && f.locks[b].owner != now.owner
      ensures BytesExclusive(now, f.locks[b]) && BytesExclusive(f.locks[b], now)
    {
      assert BytesExclusive(was, f.locks[b]);
      assert !LockInTheWay(f.locks[b], now.obj, now.owner, r);
      UpdateExclusive(was, f.locks[b], now, r);
    }
  }

  lemma LockNewKeeps(f: FileState, clientid: ClientId, open: Stateid, owner: StateOwner, obj: ServerObject, r: LockRange)
    requires Inv(f)
    ensures Inv(LockNew(f, clientid, open, owner, obj, r).1)
    ensures LocksHaveOpens(f) ==> LocksHaveOpens(LockNew(f, clientid, open, owner, obj, r).1)
    ensures OwnersMatch(f) && owner.clientid == clientid ==> OwnersMatch(LockNew(f, clientid, open, owner, obj, r).1)
  {
    var (res, f') := LockNew(f, clientid, open, owner, obj, r);
    if res.Success? {
      var k := res.value.other;
      var now := f'.locks[k];
      assert Canonical([r]);
      forall p | p < U64_MAX
        ensures TypeAt([r], p) == if r.Covers(p) then Some(r.locktype) else TypeAt([], p)
      {
        SingleRange(r, p);
      }
      LockKeepsExclusive(f, k, now.(ranges := []), now, r);
      PutLockKeeps(f, k, now, f'.next);
    }
  }

  lemma LockMoreKeeps(f: FileState, clientid: ClientId, s: Stateid, obj: ServerObject, r: LockRange)
    requires Inv(f)
    ensures Inv(LockMore(f, clientid, s, obj, r).1)
    ensures LocksHaveOpens(f) ==> LocksHaveOpens(LockMore(f, clientid, s, obj, r).1)
    ensures OwnersMatch(f) ==> OwnersMatch(LockMore(f, clientid, s, obj, r).1)
  {
    var (res, f') := LockMore(f, clientid, s, obj, r);
    if res.Success? {
      var was, now := f.locks[s.other], f'.locks[s.other];
      ReplacedIsUpdate(was.ranges, r);
      ReplacedNonEmpty(was.ranges, r);
      LockKeepsExclusive(f, s.other, was, now, r);
      PutLockKeeps(f, s.other, now, f.next);
    }
  }

  lemma UnlockKeeps(f: FileState, clientid: ClientId, s: Stateid, obj: ServerObject, offset: u64, length: u64)
    requires Inv(f)
    ensures Inv(UnlockRange(f, clientid, s, obj, offset, length).1)
    ensures LocksHaveOpens(f) ==> LocksHaveOpens(UnlockRange(f, clientid, s, obj, offset, length).1)
    ensures OwnersMatch(f) ==> OwnersMatch(UnlockRange(f, clientid, s, obj, offset, length).1)
  {
    var (res, f') := UnlockRange(f, clientid, s, obj, offset, length);
    if res.Success? {
      var was, now := f.locks[s.other], f'.locks[s.other];
      UnlockedIsUpdate(was.ranges, offset, length);
      forall b | b in f.locks && b != s.other && f.locks[b].obj == now.obj && f.locks[b].owner != now.owner
        ensures BytesExclusive(now, f.locks[b]) && BytesExclusive(f.locks[b], now)
      {
        assert BytesExclusive(was, f.locks[b]);
      }
      PutLockKeeps(f, s.other, now, f.next);
    }
  }
}
