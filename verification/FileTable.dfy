/** The open and lock tables as the server keeps them, searched and updated in place. */
module FileTable {
  import opened NfsTypes
  import opened Stateids
  import opened LockRanges
  import opened Files
  import FR = FileRuns

  /** The range that stands in the way of a LOCK, and who holds it. */
  datatype LockDenied = LockDenied(range: LockRange, owner: StateOwner)

  /** A denied reply names a range that really is in the way. */
  ghost predicate Names(f: FileState, denied: LockDenied, obj: ServerObject, owner: StateOwner, r: LockRange, ignore: Option<Other>) {
    exists k | k in f.locks ::
      && ignore != Some(k) && f.locks[k].active && f.locks[k].obj == obj && f.locks[k].owner == denied.owner
      && denied.owner != owner && denied.range in f.locks[k].ranges && RangeConflicts(denied.range, r)
  }

  /** An owner has one open of an object, so whichever is found is that one. */
  lemma OwnOpenUnique(f: FileState, obj: ServerObject, owner: StateOwner, k: Other)
    requires OneOpenPerOwner(f) && IsOwnOpen(f, k, obj, owner)
    ensures OwnOpen(f, obj, owner) == Some(k)
  {
    assert HasOwnOpen(f, obj, owner);
    var j := OwnOpen(f, obj, owner).value;
    assert IsOwnOpen(f, j, obj, owner);
  }

  /** Resolving a stateid never answers that a lock is in the way. */
  lemma ResolveStatus(f: FileState, clientid: ClientId, s: Stateid)
    ensures Resolve(f, Some(clientid), s).Failure? ==> Resolve(f, Some(clientid), s).status != Denied
  {
  }

  predicate IsWriter(open: Open, obj: ServerObject) {
    open.active && open.obj == obj && open.access.write
  }

  ghost predicate HasWriter(f: FileState, obj: ServerObject) {
    exists k | k in f.opens :: IsWriter(f.opens[k], obj)
  }

  /** Closing takes away a writer exactly if the open was one, and leaves the others. */
  lemma CloseWriters(f: FileState, s: Stateid)
    requires CloseOpen(f, s).0.Success?
    ensures var f', obj := CloseOpen(f, s).1, f.opens[s.other].obj;
            HasWriter(f, obj) <==> HasWriter(f', obj) || f.opens[s.other].access.write
  {
    var f', obj := CloseOpen(f, s).1, f.opens[s.other].obj;
    if f.opens[s.other].access.write {
      assert IsWriter(f.opens[s.other], obj);
    }
    if k :| k in f'.opens && IsWriter(f'.opens[k], obj) {
      assert IsWriter(f.opens[k], obj);
    }
    if k :| k in f.opens && k != s.other && IsWriter(f.opens[k], obj) {
      assert IsWriter(f'.opens[k], obj);
    }
  }

  class FileTable {
    var opens: map<Other, Open>
    var locks: map<Other, Lock>
    var next: nat
    var retired: set<ObjectId>

    function State(): FileState
      reads this
    {
      FileState(opens, locks, next, retired)
    }

    ghost predicate Valid()
      reads this
    {
      Inv(State())
    }

    constructor ()
      ensures Valid() && State() == FR.EMPTY
    {
      opens, locks, next, retired := map[], map[], 1, {};
      new;
      FR.RunKeepsInv(FR.EMPTY, []);
    }

    // ---- OPEN ----

    /** The owner's active open of the object, in whatever order the table is searched. */
    method FindOwnOpen(obj: ServerObject, owner: StateOwner) returns (own: Option<Other>)
      requires OneOpenPerOwner(State())
      ensures own == OwnOpen(State(), obj, owner)
    {
      var left := opens.Keys;
      while left != {}
        invariant left <= opens.Keys && forall k | k in opens.Keys - left :: !IsOwnOpen(State(), k, obj, owner)
        decreases left
      {
        var k :| k in left;
        var open := opens[k];
        if open.active && open.obj == obj && open.clientid == owner.clientid && open.owner == owner.owner {
          OwnOpenUnique(State(), obj, owner, k);
          return Some(k);
        }
        left := left - {k};
      }
      assert forall k :: !IsOwnOpen(State(), k, obj, owner);
      return None;
    }

    method ShareDeniedFor(obj: ServerObject, own: Option<Other>, access: Mask, deny: Mask) returns (denied: bool)
      ensures denied == ShareDeniedBy(State(), obj, own, access, deny)
    {
      var left := opens.Keys;
      while left != {}
        invariant left <= opens.Keys
        invariant forall k | k in opens.Keys - left ::
                    !(opens[k].active && own != Some(k) && opens[k].obj == obj && ShareConflict(opens[k], access, deny))
        decreases left
      {
        var k :| k in left;
        left := left - {k};
        if !opens[k].active || own == Some(k) {
          continue;
        }
        if opens[k].obj == obj && (opens[k].deny.Meets(access) || deny.Meets(opens[k].access)) {
          return true;
        }
      }
      return false;
    }

    method CreateOpenState(obj: ServerObject, owner: StateOwner, shareAccess: u32, shareDeny: u32)
      returns (r: Result<Stateid>)
      requires Valid()
      modifies this
      ensures Valid() && (r, State()) == CreateOpen(old(State()), obj, owner, shareAccess, shareDeny)
    {
      ghost var f := State();
      r := OpenOrUpgrade(obj, owner, shareAccess, shareDeny);
      CreateOpenKeeps(f, obj, owner, shareAccess, shareDeny);
    }

    method OpenOrUpgrade(obj: ServerObject, owner: StateOwner, shareAccess: u32, shareDeny: u32)
      returns (r: Result<Stateid>)
      requires OneOpenPerOwner(State())
      modifies this
      ensures (r, State()) == CreateOpen(old(State()), obj, owner, shareAccess, shareDeny)
    {
      var access, deny := ModeBits(shareAccess), ModeBits(shareDeny);
      if !(access.read || access.write) || shareDeny > 3 {
        return Failure(Inval);
      }
      if obj.Base() in retired {
        return Failure(Status.Stale);
      }
      var own := FindOwnOpen(obj, owner);
      var wantAccess, wantDeny := access, deny;
      if own.Some? {
        wantAccess, wantDeny := opens[own.value].access.Or(access), opens[own.value].deny.Or(deny);
      }
      var denied := ShareDeniedFor(obj, own, wantAccess, wantDeny);
      if denied {
        return Failure(ShareDenied);
      }
      if own.Some? {
        var open := opens[own.value];
        opens := opens[own.value := open.(access := wantAccess, deny := wantDeny, seqid := open.seqid + 1)];
        return Success(Stateid(open.seqid + 1, own.value));
      }
      var k := Other(next, owner.clientid);
      next := next + 1;
      opens := opens[k := Open(obj, owner.clientid, owner.owner, 1, true, access, deny)];
      return Success(Stateid(1, k));
    }

    // ---- CLOSE and OPEN_DOWNGRADE ----

    method HasLocks(open: Other) returns (held: bool)
      ensures held == HoldsLocks(State(), open)
    {
      var left := locks.Keys;
      while left != {}
        invariant left <= locks.Keys
        invariant forall k | k in locks.Keys - left :: !(locks[k].active && locks[k].openOther == open)
        decreases left
      {
        var k :| k in left;
        left := left - {k};
        if locks[k].active && locks[k].openOther == open {
          return true;
        }
      }
      return false;
    }

    /** Also tells whether the object has just lost its last open for writing. */
    method CloseState(s: Stateid) returns (r: Result<Stateid>, lastWriter: bool)
      requires Valid()
      modifies this
      ensures Valid() && (r, State()) == CloseOpen(old(State()), s)
      ensures lastWriter <==> r.Success? && HasWriter(old(State()), old(opens)[s.other].obj) && !HasWriter(State(), old(opens)[s.other].obj)
    {
      ghost var f := State();
      r := TestAndClose(s);
      CloseKeeps(f, s);
      lastWriter := false;
      if r.Success? {
        var remain := WritersRemain(opens[s.other].obj);
        lastWriter := opens[s.other].access.write && !remain;
        CloseWriters(f, s);
      }
    }

    method WritersRemain(obj: ServerObject) returns (remain: bool)
      ensures remain == HasWriter(State(), obj)
    {
      var left := opens.Keys;
      while left != {}
        invariant left <= opens.Keys && forall k | k in opens.Keys - left :: !IsWriter(opens[k], obj)
        decreases left
      {
        var k :| k in left;
        left := left - {k};
        if opens[k].active && opens[k].obj == obj && opens[k].access.write {
          return true;
        }
      }
      return false;
    }

    method TestAndClose(s: Stateid) returns (r: Result<Stateid>)
      modifies this
      ensures (r, State()) == CloseOpen(old(State()), s)
    {
      if s.other !in opens {
        return Failure(BadStateid);
      }
      var open := opens[s.other];
      var v := ValidateSeq(open.seqid, s.seqid);
      if v != Ok {
        return Failure(v);
      }
      if !open.active {
        return Failure(BadStateid);
      }
      var held := HasLocks(s.other);
      if held {
        return Failure(LocksHeld);
      }
      opens := opens[s.other := open.(active := false, seqid := open.seqid + 1)];
      return Success(Stateid(open.seqid + 1, s.other));
    }

    method OpenDowngrade(s: Stateid, shareAccess: u32, shareDeny: u32) returns (r: Result<Stateid>)
      requires Valid()
      modifies this
      ensures Valid() && (r, State()) == DowngradeOpen(old(State()), s, shareAccess, shareDeny)
    {
      ghost var f := State();
      r := TestAndDowngrade(s, shareAccess, shareDeny);
      DowngradeKeeps(f, s, shareAccess, shareDeny);
    }

    method TestAndDowngrade(s: Stateid, shareAccess: u32, shareDeny: u32) returns (r: Result<Stateid>)
      modifies this
      ensures (r, State()) == DowngradeOpen(old(State()), s, shareAccess, shareDeny)
    {
      var word := WithoutWant(shareAccess);
      if !(1 <= word <= 3) || shareDeny > 3 {
        return Failure(Inval);
      }
      if s.other !in opens {
        return Failure(BadStateid);
      }
      var open := opens[s.other];
      var v := ValidateSeq(open.seqid, s.seqid);
      if v != Ok {
        return Failure(v);
      }
      if !open.active {
        return Failure(BadStateid);
      }
      var access, deny := ModeBits(word), ModeBits(shareDeny);
      if !access.Within(open.access) || !deny.Within(open.deny) {
        return Failure(Inval);
      }
      opens := opens[s.other := open.(access := access, deny := deny, seqid := open.seqid + 1)];
      return Success(Stateid(open.seqid + 1, s.other));
    }

    // ---- LOCK and LOCKU ----

    /** The first range, in whatever order the locks are searched, that stands in the way. */
    method FindLockConflict(obj: ServerObject, owner: StateOwner, r: LockRange, ignore: Option<Other>)
      returns (denied: Option<LockDenied>)
      ensures denied.Some? <==> LockDeniedBy(State(), obj, owner, r, ignore)
      ensures denied.Some? ==> Names(State(), denied.value, obj, owner, r, ignore)
    {
      var left := locks.Keys;
      while left != {}
        invariant left <= locks.Keys
        invariant forall k | k in locks.Keys - left :: ignore == Some(k) || !LockInTheWay(locks[k], obj, owner, r)
        decreases left
      {
        var k :| k in left;
        left := left - {k};
        if ignore == Some(k) || !locks[k].active || locks[k].obj != obj || locks[k].owner == owner {
          continue;
        }
        var i := FirstConflict(locks[k].ranges, r);
        if i.Some? {
          return Some(LockDenied(locks[k].ranges[i.value], locks[k].owner));
        }
      }
      return None;
    }

    method FirstConflict(ranges: seq<LockRange>, r: LockRange) returns (found: Option<nat>)
      ensures match found
              case Some(i) => i < |ranges| && RangeConflicts(ranges[i], r)
              case None => forall i | 0 <= i < |ranges| :: !RangeConflicts(ranges[i], r)
    {
      for i := 0 to |ranges|
        invariant forall j | 0 <= j < i :: !RangeConflicts(ranges[j], r)
      {
        if !LocksOverlap(ranges[i].offset, ranges[i].length, r.offset, r.length) {
          continue;
        }
        if !IsWriteLock(ranges[i].locktype) && !IsWriteLock(r.locktype) {
          continue;
        }
        return Some(i);
      }
      return None;
    }

    /** LOCK with a new lock owner: test and insert as one step. */
    method TakeLock(clientid: ClientId, s: Stateid, owner: StateOwner, obj: ServerObject, r: LockRange)
      returns (res: Result<Stateid>, denied: Option<LockDenied>)
      requires Valid()
      modifies this
      ensures Valid() && (res, State()) == LockNew(old(State()), clientid, s, owner, obj, r)
      ensures denied.Some? <==> res == Failure(Denied)
      ensures denied.Some? ==> Names(State(), denied.value, obj, owner, r, None)
    {
      ghost var f := State();
      res, denied := TestAndInsert(clientid, s, owner, obj, r);
      LockNewKeeps(f, clientid, s, owner, obj, r);
    }

    method TestAndInsert(clientid: ClientId, s: Stateid, owner: StateOwner, obj: ServerObject, r: LockRange)
      returns (res: Result<Stateid>, denied: Option<LockDenied>)
      modifies this
      ensures (res, State()) == LockNew(old(State()), clientid, s, owner, obj, r)
      ensures denied.Some? <==> res == Failure(Denied)
      ensures denied.Some? ==> Names(State(), denied.value, obj, owner, r, None)
    {
      denied := None;
      if !r.Bounded() {
        res := Failure(Inval);
        return;
      }
      var found := Resolve(State(), Some(clientid), s);
      if found.Failure? {
        ResolveStatus(State(), clientid, s);
        res := Failure(found.status);
        return;
      }
      if !found.value.ResolvedOpen? || found.value.open.obj != obj {
        res := Failure(Openmode);
        return;
      }
      denied := FindLockConflict(obj, owner, r, None);
      if denied.Some? {
        res := Failure(Denied);
        return;
      }
      if obj.Base() in retired {
        res := Failure(Status.Stale);
        return;
      }
      var k := Other(next, owner.clientid);
      next := next + 1;
      locks := locks[k := Lock(obj, owner, s.other, [r], true, 1)];
      res := Success(Stateid(1, k));
    }

    /** LOCK with an existing lock owner: test and update as one step. */
    method ExtendLock(clientid: ClientId, s: Stateid, obj: ServerObject, r: LockRange)
      returns (res: Result<Stateid>, denied: Option<LockDenied>)
      requires Valid()
      modifies this
      ensures Valid() && (res, State()) == LockMore(old(State()), clientid, s, obj, r)
      ensures denied.Some? <==> res == Failure(Denied)
      ensures denied.Some? ==> s.other in locks && Names(State(), denied.value, obj, locks[s.other].owner, r, Some(s.other))
    {
      ghost var f := State();
      res, denied := TestAndUpdate(clientid, s, obj, r);
      LockMoreKeeps(f, clientid, s, obj, r);
    }

    method TestAndUpdate(clientid: ClientId, s: Stateid, obj: ServerObject, r: LockRange)
      returns (res: Result<Stateid>, denied: Option<LockDenied>)
      requires RangesSound(State())
      modifies this
      ensures (res, State()) == LockMore(old(State()), clientid, s, obj, r)
      ensures denied.Some? <==> res == Failure(Denied)
      ensures denied.Some? ==> s.other in locks && Names(State(), denied.value, obj, locks[s.other].owner, r, Some(s.other))
    {
      denied := None;
      if !r.Bounded() {
        res := Failure(Inval);
        return;
      }
      var found := Resolve(State(), Some(clientid), s);
      if found.Failure? {
        ResolveStatus(State(), clientid, s);
        res := Failure(found.status);
        return;
      }
      if !found.value.ResolvedLock? || found.value.lock.obj != obj {
        res := Failure(BadStateid);
        return;
      }
      var l := found.value.lock;
      denied := FindLockConflict(obj, l.owner, r, Some(s.other));
      if denied.Some? {
        res := Failure(Denied);
        return;
      }
      var ranges := ReplaceLockRange(l.ranges, r);
      locks := locks[s.other := l.(ranges := ranges, active := true, seqid := l.seqid + 1)];
      res := Success(Stateid(l.seqid + 1, s.other));
    }

    /** LOCKU. */
    method UnlockState(clientid: ClientId, s: Stateid, obj: ServerObject, offset: u64, length: u64)
      returns (res: Result<Stateid>)
      requires Valid()
      modifies this
      ensures Valid() && (res, State()) == UnlockRange(old(State()), clientid, s, obj, offset, length)
    {
      ghost var f := State();
      res := ResolveAndUnlock(clientid, s, obj, offset, length);
      UnlockKeeps(f, clientid, s, obj, offset, length);
    }

    method ResolveAndUnlock(clientid: ClientId, s: Stateid, obj: ServerObject, offset: u64, length: u64)
      returns (res: Result<Stateid>)
      requires RangesSound(State())
      modifies this
      ensures (res, State()) == UnlockRange(old(State()), clientid, s, obj, offset, length)
    {
      var found := Resolve(State(), Some(clientid), s);
      if found.Failure? {
        return Failure(found.status);
      }
      if !found.value.ResolvedLock? || found.value.lock.obj != obj {
        return Failure(BadStateid);
      }
      if !ValidBounds(offset, length) {
        return Failure(Inval);
      }
      var l := found.value.lock;
      var left := UnlockRanges(l.ranges, offset, length);
      locks := locks[s.other := l.(ranges := left, active := left != [], seqid := l.seqid + 1)];
      return Success(Stateid(l.seqid + 1, s.other));
    }

    // ---- FREE_STATEID, and losing state ----

    method FreeStateid(s: Stateid) returns (r: Option<Status>)
      requires Valid()
      modifies this
      ensures Valid() && (r, State()) == FR.Free(old(State()), s)
    {
      ghost var f := State();
      if s.other in opens {
        var v := ValidateSeq(opens[s.other].seqid, s.seqid);
        if v != Ok {
          return Some(v);
        }
        var held := HasLocks(s.other);
        if opens[s.other].active || held {
          return Some(LocksHeld);
        }
        opens := opens - {s.other};
        FR.DropKeeps(f, State());
        return Some(Ok);
      }
      if s.other in locks {
        var v := ValidateSeq(locks[s.other].seqid, s.seqid);
        if v != Ok {
          return Some(v);
        }
        if locks[s.other].active {
          return Some(LocksHeld);
        }
        locks := locks - {s.other};
        FR.DropKeeps(f, State());
        return Some(Ok);
      }
      return None;
    }

    method RevokeClientState(clientid: ClientId)
      requires Valid()
      modifies this
      ensures Valid() && State() == FR.RevokeClient(old(State()), clientid)
    {
      FR.DropKeeps(State(), FR.RevokeClient(State(), clientid));
      opens := map k | k in opens && opens[k].clientid != clientid :: opens[k];
      locks := map k | k in locks && locks[k].owner.clientid != clientid :: locks[k];
    }

    /** Collect what belongs to the retired objects, then remove it piece by piece. */
    method InvalidateObjects(ids: set<ObjectId>) returns (droppedOpens: nat, droppedLocks: nat)
      requires Valid()
      modifies this
      ensures Valid() && State() == FR.Invalidate(old(State()), ids)
      ensures droppedOpens == |set k | k in old(opens) && old(opens)[k].obj.Base() in ids|
      ensures droppedLocks == |set k | k in old(locks) && old(locks)[k].obj.Base() in ids|
    {
      ghost var f := State();
      droppedOpens, droppedLocks := DropAll(ids);
      FR.DropKeeps(f, State());
    }

    method DropAll(ids: set<ObjectId>) returns (droppedOpens: nat, droppedLocks: nat)
      modifies this
      ensures State() == FR.Invalidate(old(State()), ids)
      ensures droppedOpens == |set k | k in old(opens) && old(opens)[k].obj.Base() in ids|
      ensures droppedLocks == |set k | k in old(locks) && old(locks)[k].obj.Base() in ids|
    {
      droppedOpens := DropOpens(set k | k in opens && opens[k].obj.Base() in ids);
      droppedLocks := DropLocks(set k | k in locks && locks[k].obj.Base() in ids);
    }

    method DropOpens(gone: set<Other>) returns (n: nat)
      modifies this`opens
      ensures opens == old(opens) - gone && n == |gone|
    {
      n := 0;
      var left := gone;
      while left != {}
        invariant left <= gone && opens == old(opens) - (gone - left) && n == |gone| - |left|
        decreases left
      {
        var k :| k in left;
        left := left - {k};
        opens := opens - {k};
        n := n + 1;
        assert gone - left == (gone - (left + {k})) + {k};
      }
    }

    method DropLocks(gone: set<Other>) returns (n: nat)
      modifies this`locks
      ensures locks == old(locks) - gone && n == |gone|
    {
      n := 0;
      var left := gone;
      while left != {}
        invariant left <= gone && locks == old(locks) - (gone - left) && n == |gone| - |left|
        decreases left
      {
        var k :| k in left;
        left := left - {k};
        locks := locks - {k};
        n := n + 1;
        assert gone - left == (gone - (left + {k})) + {k};
      }
    }
  }
}
