/**
  What each operation on opens and locks answers, and what it leaves behind, in terms of the
  request: when it succeeds, which bytes and share modes it hands out or gives up, which requests
  are refused afterwards, and that nothing else changes.
 */
module FileEffects {
  import opened NfsTypes
  import opened Stateids
  import opened LockRanges
  import opened Files
  import FR = FileRuns

  // ---- Share words ----

  /** Bit 0 is READ and bit 1 is WRITE; higher bits are no mode. */
  lemma ModeBitsAreLowBits(word: u32)
    ensures var m := ModeBits(word); word % 4 == (if m.read then 1 else 0) + (if m.write then 2 else 0)
  {
    var q, m := word / 4, word % 4;
    assert word == 4 * q + m;
    TwoBits(q, m);
  }

  lemma TwoBits(q: nat, m: nat)
    requires m < 4
    ensures (4 * q + m) % 2 == m % 2 && (4 * q + m) / 2 % 2 == m / 2
  {
    assert (4 * q + m) / 2 == 2 * q + m / 2;
    assert 4 * q + m == 2 * (2 * q + m / 2) + m % 2;
  }

  /** Bits 8 to 15 are taken out, and no others. */
  lemma WantBitsCleared(high: nat, want: nat, low: nat)
    requires high < 0x1_0000 && want < 0x100 && low < 0x100
    ensures WithoutWant(high * 0x1_0000 + want * 0x100 + low) == high * 0x1_0000 + low
  {
    HighPart(high, want * 0x100 + low);
    LowPart(high * 0x100 + want, low);
  }

  lemma HighPart(a: nat, b: nat)
    requires b < 0x1_0000
    ensures (a * 0x1_0000 + b) / 0x1_0000 == a
  {
  }

  lemma LowPart(a: nat, b: nat)
    requires b < 0x100
    ensures (a * 0x100 + b) % 0x100 == b
  {
  }

  // ---- OPEN ----

  /** An active open of the object by another owner denies what is asked, or has what the request denies. */
  ghost predicate InTheWay(f: FileState, k: Other, obj: ServerObject, owner: StateOwner, access: u32, deny: u32) {
    && k in f.opens && f.opens[k].active && f.opens[k].obj == obj
    && (f.opens[k].clientid != owner.clientid || f.opens[k].owner != owner.owner)
    && (f.opens[k].deny.Meets(ModeBits(access)) || ModeBits(deny).Meets(f.opens[k].access))
  }

  ghost predicate ShareBlocked(f: FileState, obj: ServerObject, owner: StateOwner, access: u32, deny: u32) {
    exists k :: InTheWay(f, k, obj, owner, access, deny)
  }

  /**
    When OPEN succeeds, and its error otherwise. Only what is asked matters, not the union with what
    the owner has: that was checked when it was opened.
   */
  lemma OpenAnswers(f: FileState, obj: ServerObject, owner: StateOwner, access: u32, deny: u32)
    requires Inv(f)
    ensures var r := CreateOpen(f, obj, owner, access, deny).0;
            var valid, live := access % 4 != 0 && deny <= 3, obj.Base() !in f.retired;
            && (r.Success? <==> valid && live && !ShareBlocked(f, obj, owner, access, deny))
            && (r == Failure(ShareDenied) <==> valid && live && ShareBlocked(f, obj, owner, access, deny))
            && (r == Failure(Status.Stale) <==> valid && !live)
            && (r == Failure(Inval) <==> !valid)
  {
    ModeBitsAreLowBits(access);
    DeniedIsInTheWay(f, obj, owner, access, deny);
  }

  lemma DeniedIsInTheWay(f: FileState, obj: ServerObject, owner: StateOwner, access: u32, deny: u32)
    requires SharesRespected(f) && OneOpenPerOwner(f)
    ensures var own := OwnOpen(f, obj, owner);
            var want := Union(f, own, ModeBits(access), ModeBits(deny));
            ShareDeniedBy(f, obj, own, want.0, want.1) <==> ShareBlocked(f, obj, owner, access, deny)
  {
    var own := OwnOpen(f, obj, owner);
    var want := Union(f, own, ModeBits(access), ModeBits(deny));
    forall k
      ensures InTheWay(f, k, obj, owner, access, deny)
         <==> k in f.opens && f.opens[k].active && own != Some(k) && f.opens[k].obj == obj
              && ShareConflict(f.opens[k], want.0, want.1)
    {
      if k in f.opens && f.opens[k].active && f.opens[k].obj == obj && own != Some(k) {
        NotOwn(f, obj, owner, k);
      }
    }
  }

  /** An open of the object that is not the owner's own one is another owner's. */
  lemma NotOwn(f: FileState, obj: ServerObject, owner: StateOwner, k: Other)
    requires OneOpenPerOwner(f) && k in f.opens && f.opens[k].active && f.opens[k].obj == obj && OwnOpen(f, obj, owner) != Some(k)
    ensures !f.opens[k].OwnedBy(owner)
  {
    if f.opens[k].OwnedBy(owner) {
      assert IsOwnOpen(f, k, obj, owner);
    }
  }

  /** OPEN hands out the modes asked for, added to what the owner has; nothing else changes, and the stateid works. */
  lemma OpenHandsOut(f: FileState, obj: ServerObject, owner: StateOwner, access: u32, deny: u32)
    requires Inv(f) && CreateOpen(f, obj, owner, access, deny).0.Success?
    ensures var (r, f') := CreateOpen(f, obj, owner, access, deny);
            var k := r.value.other;
            && k in f'.opens && f'.opens - {k} == f.opens - {k} && f'.locks == f.locks && f'.retired == f.retired
            && f'.opens[k].active && f'.opens[k].obj == obj && f'.opens[k].OwnedBy(owner)
            && Resolve(f', Some(owner.clientid), r.value) == Success(ResolvedOpen(f'.opens[k]))
            && r.value.seqid == f'.opens[k].seqid
            && (if HasOwnOpen(f, obj, owner)
                then k in f.opens && f.opens[k].active && f'.next == f.next
                     && f'.opens[k].seqid == f.opens[k].seqid + 1
                     && f'.opens[k].access == f.opens[k].access.Or(ModeBits(access))
                     && f'.opens[k].deny == f.opens[k].deny.Or(ModeBits(deny))
                else k == Other(f.next, owner.clientid) && f'.next == f.next + 1 && f'.opens[k].seqid == 1
                     && f'.opens[k].access == ModeBits(access) && f'.opens[k].deny == ModeBits(deny))
  {
  }

  /** After an OPEN, another owner cannot open for what it denies, nor deny what it has. */
  lemma OpenExcludes(f: FileState, obj: ServerObject, owner: StateOwner, access: u32, deny: u32,
                     other: StateOwner, access': u32, deny': u32)
    requires Inv(f) && CreateOpen(f, obj, owner, access, deny).0.Success?
    requires other != owner && access' % 4 != 0 && deny' <= 3
    requires ModeBits(deny).Meets(ModeBits(access')) || ModeBits(deny').Meets(ModeBits(access))
    ensures CreateOpen(CreateOpen(f, obj, owner, access, deny).1, obj, other, access', deny').0 == Failure(ShareDenied)
  {
    var (r, f') := CreateOpen(f, obj, owner, access, deny);
    OpenHandsOut(f, obj, owner, access, deny);
    CreateOpenKeeps(f, obj, owner, access, deny);
    assert InTheWay(f', r.value.other, obj, other, access', deny');
    OpenAnswers(f', obj, other, access', deny');
    OpenAnswers(f, obj, owner, access, deny);
  }

  // ---- CLOSE, OPEN_CONFIRM, OPEN_DOWNGRADE, FREE_STATEID ----

  /** The stateid names an active open, at its current seqid or with none given. */
  predicate NamesOpen(f: FileState, s: Stateid) {
    s.other in f.opens && f.opens[s.other].active && (s.seqid == 0 || s.seqid == f.opens[s.other].seqid)
  }

  /** Nothing differs but the open that the stateid names. */
  ghost predicate OnlyOpen(f: FileState, f': FileState, k: Other) {
    k in f'.opens && f'.opens - {k} == f.opens - {k} && f'.locks == f.locks && f'.next == f.next && f'.retired == f.retired
  }

  /** CLOSE succeeds exactly on an active open under which no byte is locked. */
  lemma CloseAnswers(f: FileState, s: Stateid)
    requires Inv(f)
    ensures var r := CloseOpen(f, s).0;
            var locked := exists k, q | k in f.locks && f.locks[k].openOther == s.other :: TypeAt(f.locks[k].ranges, q).Some?;
            && (r.Success? <==> NamesOpen(f, s) && !locked)
            && (r == Failure(LocksHeld) <==> NamesOpen(f, s) && locked)
            && (r == Failure(OldStateid) <==> s.other in f.opens && 0 < s.seqid < f.opens[s.other].seqid)
            && (r.Success? || r.status in {LocksHeld, OldStateid, BadStateid})
  {
    if NamesOpen(f, s) {
      if HoldsLocks(f, s.other) {
        var k :| k in f.locks && f.locks[k].active && f.locks[k].openOther == s.other;
        var first := f.locks[k].ranges[0];
        assert TypeAt(f.locks[k].ranges, first.offset).Some?;
      } else {
        forall k, q | k in f.locks && f.locks[k].openOther == s.other
          ensures TypeAt(f.locks[k].ranges, q).None?
        {
          assert !f.locks[k].active;
        }
      }
    }
  }

  /** A closed stateid never resolves again, for anyone, whatever happens; and nothing else changed. */
  lemma ClosedForGood(f: FileState, s: Stateid, actions: seq<FR.Action>, clientid: Option<ClientId>, seqid: nat)
    requires Inv(f) && CloseOpen(f, s).0.Success?
    ensures var (r, f') := CloseOpen(f, s);
            && OnlyOpen(f, f', s.other) && r.value == Stateid(f.opens[s.other].seqid + 1, s.other)
            && Resolve(FR.Run(f', actions), clientid, Stateid(seqid, s.other)).Failure?
  {
    var f' := CloseOpen(f, s).1;
    CloseKeeps(f, s);
    FR.DeadStateidStaysDead(f', actions, s.other, clientid, seqid);
  }

  /** Closing a fresh open undoes it: every OPEN is answered as if it had not been there. */
  lemma CloseUndoesOpen(f: FileState, obj: ServerObject, owner: StateOwner, access: u32, deny: u32,
                        x: ServerObject, other: StateOwner, access': u32, deny': u32)
    requires Inv(f) && CreateOpen(f, obj, owner, access, deny).0.Success? && !HasOwnOpen(f, obj, owner)
    ensures var (s, held) := CreateOpen(f, obj, owner, access, deny);
            var (r, closed) := CloseOpen(held, s.value);
            && r.Success?
            && (CreateOpen(closed, x, other, access', deny').0.Success? <==> CreateOpen(f, x, other, access', deny').0.Success?)
  {
    var (s, held) := CreateOpen(f, obj, owner, access, deny);
    OpenHandsOut(f, obj, owner, access, deny);
    CreateOpenKeeps(f, obj, owner, access, deny);
    FreshHasNoLocks(f, held, s.value);
    var closed := CloseOpen(held, s.value).1;
    CloseKeeps(held, s.value);
    assert closed.opens - {s.value.other} == f.opens;
    SameAnswer(f, closed, s.value.other, x, other, access', deny');
  }

  /** An inactive open more or less makes no difference to OPEN. */
  lemma SameAnswer(f: FileState, f': FileState, k: Other, obj: ServerObject, owner: StateOwner, access: u32, deny: u32)
    requires Inv(f) && Inv(f') && k !in f.opens && f'.opens - {k} == f.opens && f'.retired == f.retired
    requires k in f'.opens ==> !f'.opens[k].active
    ensures CreateOpen(f', obj, owner, access, deny).0.Success? <==> CreateOpen(f, obj, owner, access, deny).0.Success?
  {
    OpenAnswers(f, obj, owner, access, deny);
    OpenAnswers(f', obj, owner, access, deny);
    forall j
      ensures InTheWay(f, j, obj, owner, access, deny) <==> InTheWay(f', j, obj, owner, access, deny)
    {
      assert j in f.opens <==> j in f'.opens - {k};
    }
  }

  lemma FreshHasNoLocks(f: FileState, held: FileState, s: Stateid)
    requires Inv(f) && held.locks == f.locks && s.other.counter == f.next && s.seqid == 1
    requires s.other in held.opens && held.opens[s.other].active && held.opens[s.other].seqid == 1
    ensures CloseOpen(held, s).0.Success?
  {
    assert forall k | k in f.locks :: f.locks[k].openOther.counter < f.next;
  }

  /** OPEN_CONFIRM succeeds exactly on an active open, and moves its seqid: the old one is refused, the new one works. */
  lemma ConfirmMoves(f: FileState, s: Stateid)
    requires Inv(f)
    ensures ConfirmOpen(f, s).0.Success? <==> NamesOpen(f, s)
    ensures ConfirmOpen(f, s).0.Failure? ==> ConfirmOpen(f, s).1 == f
    ensures var (r, f') := ConfirmOpen(f, s);
            r.Success? ==>
              && OnlyOpen(f, f', s.other) && f'.opens[s.other].(seqid := f.opens[s.other].seqid) == f.opens[s.other]
              && r.value == Stateid(f.opens[s.other].seqid + 1, s.other)
              && Resolve(f', None, r.value) == Success(ResolvedOpen(f'.opens[s.other]))
              && (s.seqid != 0 ==> Resolve(f', None, s) == Failure(OldStateid))
  {
  }

  /** OPEN_DOWNGRADE succeeds exactly for a valid share within the one held, and leaves exactly that share. */
  lemma DowngradeLeaves(f: FileState, s: Stateid, high: nat, want: nat, access: nat, deny: u32)
    requires Inv(f) && high < 0x1_0000 && want < 0x100 && access < 0x100
    ensures var (r, f') := DowngradeOpen(f, s, high * 0x1_0000 + want * 0x100 + access, deny);
            && (r.Success? <==> high == 0 && 1 <= access <= 3 && deny <= 3 && NamesOpen(f, s)
                                && ModeBits(access).Within(f.opens[s.other].access) && ModeBits(deny).Within(f.opens[s.other].deny))
            && (r.Failure? ==> f' == f)
            && (r.Success? ==>
                  && OnlyOpen(f, f', s.other) && r.value == Stateid(f.opens[s.other].seqid + 1, s.other)
                  && f'.opens[s.other] == f.opens[s.other].(access := ModeBits(access), deny := ModeBits(deny), seqid := r.value.seqid))
  {
    WantBitsCleared(high, want, access);
  }

  /** FREE_STATEID succeeds exactly on a closed open under which nothing is locked, or a lock without ranges. */
  lemma FreeAnswers(f: FileState, s: Stateid)
    requires Inv(f)
    ensures var (r, f') := FR.Free(f, s);
            && (r == Some(Ok) <==>
                  || (s.other in f.opens && s.seqid in {0, f.opens[s.other].seqid} && !f.opens[s.other].active
                      && forall k | k in f.locks && f.locks[k].openOther == s.other :: f.locks[k].ranges == [])
                  || (s.other in f.locks && s.seqid in {0, f.locks[s.other].seqid} && f.locks[s.other].ranges == []))
            && (r == None <==> s.other !in f.opens && s.other !in f.locks)
            && (r != Some(Ok) ==> f' == f)
            && (r == Some(Ok) ==> f' == f.(opens := f.opens - {s.other}, locks := f.locks - {s.other}))
  {
    assert s.other in f.opens ==> s.other !in f.locks;
    if s.other in f.opens {
      assert f.locks - {s.other} == f.locks;
      assert HoldsLocks(f, s.other) <==> exists k | k in f.locks && f.locks[k].openOther == s.other :: f.locks[k].ranges != [];
    } else if s.other in f.locks {
      assert f.opens - {s.other} == f.opens;
    }
  }

  lemma FreedForGood(f: FileState, s: Stateid, actions: seq<FR.Action>, clientid: Option<ClientId>, seqid: nat)
    requires Inv(f) && FR.Free(f, s).0 == Some(Ok)
    ensures Resolve(FR.Run(FR.Free(f, s).1, actions), clientid, Stateid(seqid, s.other)).Failure?
  {
    var f' := FR.Free(f, s).1;
    assert f' == FR.Step(f, FR.FreeStateid(s));
    FR.StepKeepsInv(f, FR.FreeStateid(s));
    FreeAnswers(f, s);
    FR.DeadStateidStaysDead(f', actions, s.other, clientid, seqid);
  }

  // ---- LOCK ----

  /** The range has this byte: from its offset on, up to its length or to the end of the file. */
  predicate Has(r: LockRange, q: int) {
    r.offset <= q && (r.length == U64_MAX || q < r.offset + r.length)
  }

  predicate ForWriting(t: LockType) {
    t == WriteLt || t == WritewLt
  }

  /** Another owner's lock on the object has a byte of r, and one of the two is for writing. */
  ghost predicate Blocks(l: Lock, obj: ServerObject, owner: StateOwner, r: LockRange) {
    && l.obj == obj && l.owner != owner
    && exists i, q: int :: 0 <= i < |l.ranges| && Has(l.ranges[i], q) && Has(r, q)
                           && (ForWriting(l.ranges[i].locktype) || ForWriting(r.locktype))
  }

  ghost predicate Blocked(f: FileState, obj: ServerObject, owner: StateOwner, r: LockRange) {
    exists k | k in f.locks :: Blocks(f.locks[k], obj, owner, r)
  }

  lemma OverlapIsSharedByte(a: LockRange, b: LockRange)
    requires a.Bounded() && b.Bounded()
    ensures LocksOverlap(a.offset, a.length, b.offset, b.length) <==> exists q: int :: Has(a, q) && Has(b, q)
  {
    var q := if a.offset < b.offset then b.offset else a.offset;
    if LocksOverlap(a.offset, a.length, b.offset, b.length) {
      assert Has(a, q) && Has(b, q);
    }
  }

  lemma InTheWayIsBlocks(l: Lock, obj: ServerObject, owner: StateOwner, r: LockRange)
    requires Canonical(l.ranges) && (l.active <==> l.ranges != []) && r.Bounded()
    ensures LockInTheWay(l, obj, owner, r) <==> Blocks(l, obj, owner, r)
  {
    forall i | 0 <= i < |l.ranges|
      ensures LocksOverlap(l.ranges[i].offset, l.ranges[i].length, r.offset, r.length) <==> exists q: int :: Has(l.ranges[i], q) && Has(r, q)
    {
      OverlapIsSharedByte(l.ranges[i], r);
    }
    if LockInTheWay(l, obj, owner, r) {
      var i :| 0 <= i < |l.ranges| && RangeConflicts(l.ranges[i], r);
      var q: int :| Has(l.ranges[i], q) && Has(r, q);
      assert Blocks(l, obj, owner, r);
    } else if Blocks(l, obj, owner, r) {
      var i, q: int :| 0 <= i < |l.ranges| && Has(l.ranges[i], q) && Has(r, q)
                       && (ForWriting(l.ranges[i].locktype) || ForWriting(r.locktype));
      assert RangeConflicts(l.ranges[i], r);
    }
  }

  lemma DeniedIsBlocked(f: FileState, obj: ServerObject, owner: StateOwner, r: LockRange, ignore: Option<Other>)
    requires RangesSound(f) && r.Bounded()
    requires ignore.Some? && ignore.value in f.locks ==> f.locks[ignore.value].owner == owner
    ensures LockDeniedBy(f, obj, owner, r, ignore) <==> Blocked(f, obj, owner, r)
  {
    forall k | k in f.locks
      ensures LockInTheWay(f.locks[k], obj, owner, r) <==> Blocks(f.locks[k], obj, owner, r)
    {
      InTheWayIsBlocks(f.locks[k], obj, owner, r);
    }
  }

  predicate InBounds(r: LockRange) {
    0 < r.length && (r.length == U64_MAX || r.offset + r.length <= U64_MAX)
  }

  /** When LOCK for a new lock owner succeeds, and when it is denied. */
  lemma LockNewAnswers(f: FileState, clientid: ClientId, s: Stateid, owner: StateOwner, obj: ServerObject, r: LockRange)
    requires Inv(f)
    ensures var res := LockNew(f, clientid, s, owner, obj, r).0;
            var ready := InBounds(r) && NamesOpen(f, s) && f.opens[s.other].clientid == clientid && f.opens[s.other].obj == obj;
            && (res.Success? <==> ready && !Blocked(f, obj, owner, r) && obj.Base() !in f.retired)
            && (res == Failure(Denied) <==> ready && Blocked(f, obj, owner, r))
            && (res.Failure? ==> LockNew(f, clientid, s, owner, obj, r).1 == f)
  {
    if r.Bounded() {
      DeniedIsBlocked(f, obj, owner, r, None);
    }
  }

  /** The stateid names a lock of the client, under an active open of the client. */
  predicate NamesLock(f: FileState, clientid: ClientId, s: Stateid) {
    && s.other in f.locks && s.other !in f.opens && (s.seqid == 0 || s.seqid == f.locks[s.other].seqid)
    && f.locks[s.other].owner.clientid == clientid && f.locks[s.other].openOther in f.opens
    && f.opens[f.locks[s.other].openOther].active && f.opens[f.locks[s.other].openOther].clientid == clientid
  }

  lemma LockMoreAnswers(f: FileState, clientid: ClientId, s: Stateid, obj: ServerObject, r: LockRange)
    requires Inv(f)
    ensures var res := LockMore(f, clientid, s, obj, r).0;
            var ready := InBounds(r) && NamesLock(f, clientid, s) && f.locks[s.other].obj == obj;
            && (res.Success? <==> ready && !Blocked(f, obj, f.locks[s.other].owner, r))
            && (res == Failure(Denied) <==> ready && Blocked(f, obj, f.locks[s.other].owner, r))
            && (res.Failure? ==> LockMore(f, clientid, s, obj, r).1 == f)
  {
    if r.Bounded() && s.other in f.locks {
      DeniedIsBlocked(f, obj, f.locks[s.other].owner, r, Some(s.other));
    }
  }

  /** Nothing differs but the lock state k and, for a new one, the counter. */
  ghost predicate OnlyLock(f: FileState, f': FileState, k: Other) {
    k in f'.locks && f'.locks - {k} == f.locks - {k} && f'.opens == f.opens && f'.retired == f.retired
  }

  /** LOCK of a new owner gives it exactly the bytes asked for; the stateid works if the owner names the client. */
  lemma LockNewHolds(f: FileState, clientid: ClientId, s: Stateid, owner: StateOwner, obj: ServerObject, r: LockRange)
    requires Inv(f) && LockNew(f, clientid, s, owner, obj, r).0.Success?
    ensures var (res, f') := LockNew(f, clientid, s, owner, obj, r);
            var k := res.value.other;
            && k == Other(f.next, owner.clientid) && f'.next == f.next + 1 && OnlyLock(f, f', k) && k !in f.locks && k !in f.opens
            && f'.locks[k].obj == obj && f'.locks[k].owner == owner && f'.locks[k].openOther == s.other
            && (forall q: int :: TypeAt(f'.locks[k].ranges, q) == if Has(r, q) && q < U128_MAX then Some(r.locktype) else None)
            && res.value.seqid == f'.locks[k].seqid == 1
            && (Resolve(f', Some(clientid), res.value).Success? <==> owner.clientid == clientid)
  {
    var (res, f') := LockNew(f, clientid, s, owner, obj, r);
    forall q: int
      ensures TypeAt([r], q) == if Has(r, q) && q < U128_MAX then Some(r.locktype) else None
    {
      SingleRange(r, q);
    }
    assert f.locks - {res.value.other} == f.locks;
  }

  /** LOCK of an existing owner gives it the bytes asked for, in the type asked for, and leaves its others. */
  lemma LockMoreHolds(f: FileState, clientid: ClientId, s: Stateid, obj: ServerObject, r: LockRange)
    requires Inv(f) && LockMore(f, clientid, s, obj, r).0.Success?
    ensures var (res, f') := LockMore(f, clientid, s, obj, r);
            var k := s.other;
            && k in f.locks && OnlyLock(f, f', k) && f'.next == f.next
            && f'.locks[k].(ranges := f.locks[k].ranges, active := f.locks[k].active, seqid := f.locks[k].seqid) == f.locks[k]
            && (forall q: int | q < U64_MAX :: TypeAt(f'.locks[k].ranges, q) == if Has(r, q) then Some(r.locktype) else TypeAt(f.locks[k].ranges, q))
            && res.value == Stateid(f.locks[k].seqid + 1, k)
            && Resolve(f', Some(clientid), res.value) == Success(ResolvedLock(f'.locks[k], f.opens[f.locks[k].openOther]))
  {
    ReplacedIsUpdate(f.locks[s.other].ranges, r);
    forall q: int | q < U64_MAX
      ensures r.Covers(q) == Has(r, q)
    {
    }
  }

  /** While an owner has a byte below 2^64-1, no other owner gets it if one of the two is for writing. */
  lemma HeldByteIsDenied(f: FileState, k: Other, q: int,
                         clientid: ClientId, s: Stateid, owner: StateOwner, r: LockRange)
    requires Inv(f) && k in f.locks && q < U64_MAX && TypeAt(f.locks[k].ranges, q).Some? && Has(r, q)
    requires owner != f.locks[k].owner && (ForWriting(TypeAt(f.locks[k].ranges, q).value) || ForWriting(r.locktype))
    requires InBounds(r) && NamesOpen(f, s) && f.opens[s.other].clientid == clientid && f.opens[s.other].obj == f.locks[k].obj
    ensures LockNew(f, clientid, s, owner, f.locks[k].obj, r).0 == Failure(Denied)
  {
    var i := TypeAtWitness(f.locks[k].ranges, q);
    assert Has(f.locks[k].ranges[i], q);
    assert Blocks(f.locks[k], f.locks[k].obj, owner, r);
    LockNewAnswers(f, clientid, s, owner, f.locks[k].obj, r);
  }

  // ---- LOCKU ----

  /** LOCKU succeeds exactly on a lock of the client, and clears exactly the bytes named, below 2^64-1. */
  lemma UnlockClears(f: FileState, clientid: ClientId, s: Stateid, obj: ServerObject, offset: u64, length: u64)
    requires Inv(f)
    ensures var (res, f') := UnlockRange(f, clientid, s, obj, offset, length);
            && (res.Success? <==> NamesLock(f, clientid, s) && f.locks[s.other].obj == obj && InBounds(LockRange(ReadLt, offset, length)))
            && (res.Failure? ==> f' == f)
            && (res.Success? ==>
                  var k := s.other;
                  && OnlyLock(f, f', k) && f'.next == f.next
                  && f'.locks[k].(ranges := f.locks[k].ranges, active := f.locks[k].active, seqid := f.locks[k].seqid) == f.locks[k]
                  && (forall q: int | q < U64_MAX :: TypeAt(f'.locks[k].ranges, q)
                        == if offset <= q && (length == U64_MAX || q < offset + length) then None else TypeAt(f.locks[k].ranges, q))
                  && res.value == Stateid(f.locks[k].seqid + 1, k)
                  && Resolve(f', Some(clientid), res.value) == Success(ResolvedLock(f'.locks[k], f.opens[f.locks[k].openOther])))
  {
    var res := UnlockRange(f, clientid, s, obj, offset, length).0;
    if res.Success? {
      UnlockedIsUpdate(f.locks[s.other].ranges, offset, length);
    }
  }

  /** After LOCKU, a LOCK within what was unlocked is denied only because of a lock state that is not this one. */
  lemma UnlockFrees(f: FileState, clientid: ClientId, s: Stateid, obj: ServerObject, offset: u64, length: u64,
                    clientid': ClientId, s': Stateid, owner: StateOwner, r: LockRange)
    requires Inv(f) && UnlockRange(f, clientid, s, obj, offset, length).0.Success?
    requires offset <= r.offset && r.length != U64_MAX && (length == U64_MAX || r.offset + r.length <= offset + length)
    ensures var f' := UnlockRange(f, clientid, s, obj, offset, length).1;
            LockNew(f', clientid', s', owner, obj, r).0 == Failure(Denied)
            ==> exists k | k in f.locks && k != s.other :: Blocks(f.locks[k], obj, owner, r)
  {
    var f' := UnlockRange(f, clientid, s, obj, offset, length).1;
    UnlockKeeps(f, clientid, s, obj, offset, length);
    UnlockClears(f, clientid, s, obj, offset, length);
    DeniedByAnother(f, f', s.other, clientid', s', owner, obj, r);
  }

  lemma DeniedByAnother(f: FileState, f': FileState, k: Other,
                        clientid: ClientId, s: Stateid, owner: StateOwner, obj: ServerObject, r: LockRange)
    requires Inv(f') && OnlyLock(f, f', k) && r.length != U64_MAX
    requires forall q: int | q < U64_MAX && Has(r, q) :: TypeAt(f'.locks[k].ranges, q) == None
    ensures LockNew(f', clientid, s, owner, obj, r).0 == Failure(Denied)
            ==> exists j | j in f.locks && j != k :: Blocks(f.locks[j], obj, owner, r)
  {
    LockNewAnswers(f', clientid, s, owner, obj, r);
    if InBounds(r) && Blocked(f', obj, owner, r) {
      FreeOfBytes(f'.locks[k], obj, owner, r);
      var j :| j in f'.locks && Blocks(f'.locks[j], obj, owner, r);
      assert j in f'.locks - {k};
      assert f.locks[j] == f'.locks[j];
    }
  }

  lemma FreeOfBytes(l: Lock, obj: ServerObject, owner: StateOwner, r: LockRange)
    requires Canonical(l.ranges) && r.length != U64_MAX && r.offset + r.length <= U64_MAX
    requires forall q: int | Has(r, q) :: TypeAt(l.ranges, q) == None
    ensures !Blocks(l, obj, owner, r)
  {
    forall i, q: int | 0 <= i < |l.ranges| && Has(l.ranges[i], q)
      ensures !Has(r, q)
    {
      if q < U64_MAX {
        TypeAtUnique(l.ranges, i, q);
      }
    }
  }

  // ---- What a step leaves alone ----

  /** The open the action is about: by stateid, by owner and object, by client, or by object. */
  predicate OpenConcerned(f: FileState, a: FR.Action, k: Other)
    requires k in f.opens
  {
    match a
    case OpenFile(obj, owner, _, _) => f.opens[k].active && f.opens[k].obj == obj && f.opens[k].OwnedBy(owner)
    case Confirm(s) => s.other == k
    case Close(s) => s.other == k
    case Downgrade(s, _, _) => s.other == k
    case FreeStateid(s) => s.other == k
    case LoseClient(c) => f.opens[k].clientid == c
    case Sweep(ids) => f.opens[k].obj.Base() in ids
    case _ => false
  }

  predicate LockConcerned(f: FileState, a: FR.Action, k: Other)
    requires k in f.locks
  {
    match a
    case ExtendLock(_, s, _, _) => s.other == k
    case Unlock(_, s, _, _, _) => s.other == k
    case FreeStateid(s) => s.other == k
    case LoseClient(c) => f.locks[k].owner.clientid == c
    case Sweep(ids) => f.locks[k].obj.Base() in ids
    case _ => false
  }

  lemma OpensUntouched(f: FileState, a: FR.Action, k: Other)
    requires Inv(f) && k in f.opens && !OpenConcerned(f, a, k)
    ensures k in FR.Step(f, a).opens && FR.Step(f, a).opens[k] == f.opens[k]
  {
    if a.OpenFile? {
      assert FR.Step(f, a) == CreateOpen(f, a.obj, a.owner, a.access, a.deny).1;
    } else if a.TakeLock? {
      assert FR.Step(f, a) == LockNew(f, a.clientid, a.s, a.lockOwner, a.obj, a.range).1;
    } else if a.ExtendLock? {
      assert FR.Step(f, a) == LockMore(f, a.clientid, a.s, a.obj, a.range).1;
    } else if a.Unlock? {
      assert FR.Step(f, a) == UnlockRange(f, a.clientid, a.s, a.obj, a.offset, a.length).1;
    }
  }

  lemma LocksUntouched(f: FileState, a: FR.Action, k: Other)
    requires Inv(f) && k in f.locks && !LockConcerned(f, a, k)
    ensures k in FR.Step(f, a).locks && FR.Step(f, a).locks[k] == f.locks[k]
  {
    if a.OpenFile? {
      assert FR.Step(f, a) == CreateOpen(f, a.obj, a.owner, a.access, a.deny).1;
    } else if a.TakeLock? {
      assert FR.Step(f, a) == LockNew(f, a.clientid, a.s, a.lockOwner, a.obj, a.range).1;
    } else if a.ExtendLock? {
      assert FR.Step(f, a) == LockMore(f, a.clientid, a.s, a.obj, a.range).1;
    } else if a.Unlock? {
      assert FR.Step(f, a) == UnlockRange(f, a.clientid, a.s, a.obj, a.offset, a.length).1;
    }
  }

  /** A step leaves every open and lock alone that it is not about. */
  lemma OthersUntouched(f: FileState, a: FR.Action, k: Other)
    requires Inv(f)
    ensures var f' := FR.Step(f, a);
            && (k in f.opens && !OpenConcerned(f, a, k) ==> k in f'.opens && f'.opens[k] == f.opens[k])
            && (k in f.locks && !LockConcerned(f, a, k) ==> k in f'.locks && f'.locks[k] == f.locks[k])
  {
    if k in f.opens && !OpenConcerned(f, a, k) {
      OpensUntouched(f, a, k);
    }
    if k in f.locks && !LockConcerned(f, a, k) {
      LocksUntouched(f, a, k);
    }
  }

  ghost predicate NeverConcerned(f: FileState, actions: seq<FR.Action>, k: Other)
    decreases |actions|
  {
    actions == []
    || ((k in f.opens ==> !OpenConcerned(f, actions[0], k)) && (k in f.locks ==> !LockConcerned(f, actions[0], k))
        && NeverConcerned(FR.Step(f, actions[0]), actions[1..], k))
  }

  /** In a run in which no step is about it, an open or a lock stays as it is. */
  lemma {:induction false} UntouchedInRuns(f: FileState, actions: seq<FR.Action>, k: Other)
    requires Inv(f) && NeverConcerned(f, actions, k)
    ensures var f' := FR.Run(f, actions);
            && (k in f.opens ==> k in f'.opens && f'.opens[k] == f.opens[k])
            && (k in f.locks ==> k in f'.locks && f'.locks[k] == f.locks[k])
    decreases |actions|
  {
    if actions != [] {
      FR.StepKeepsInv(f, actions[0]);
      OthersUntouched(f, actions[0], k);
      UntouchedInRuns(FR.Step(f, actions[0]), actions[1..], k);
    }
  }

  /** Losing a client, and a sweep, take out exactly what belongs to it. */
  lemma DropsExactly(f: FileState, clientid: ClientId, ids: set<ObjectId>, k: Other)
    ensures var f' := FR.Step(f, FR.LoseClient(clientid));
            && (k in f'.opens <==> k in f.opens && f.opens[k].clientid != clientid)
            && (k in f'.locks <==> k in f.locks && f.locks[k].owner.clientid != clientid)
    ensures var f' := FR.Step(f, FR.Sweep(ids));
            && (k in f'.opens <==> k in f.opens && f.opens[k].obj.Base() !in ids)
            && (k in f'.locks <==> k in f.locks && f.locks[k].obj.Base() !in ids)
  {
  }
}
