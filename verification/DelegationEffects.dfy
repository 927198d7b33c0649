/**
  What each operation on delegations answers and leaves behind: when a grant is made, what a return,
  a release, a revocation and a recall do to the delegation they name, and that no other changes.
 */
module DelegationEffects {
  import opened NfsTypes
  import opened Stateids
  import opened Delegations

  /** When a directory delegation is granted, and what is answered otherwise. */
  lemma GrantAnswers(d: DelegState, limits: Limits, x: ServerObject, c: ClientId)
    requires Inv(d, limits)
    ensures var r := GrantDir(d, limits, x, c).0;
            var live := x.Base() !in d.retired;
            var held := exists o | o in d.table :: d.table[o].obj == x && d.table[o].clientid == c && d.table[o].status in {Granted, RecallInProgress};
            var room := |LiveOfClient(d, c)| < limits.perClient && |LiveSet(d)| < limits.total;
            var recalled := exists o | o in d.table :: d.table[o].obj == x && d.table[o].status == RecallInProgress;
            && (r == Failure(Status.Stale) <==> !live)
            && (r == Success(AlreadyHeld) <==> live && held)
            && (r == Success(NewlyGranted(Stateid(1, Other(d.next, c)))) <==> live && !held && !recalled && room)
            && (r == Success(Unavailable) <==> live && !held && (recalled || !room))
  {
    assert forall o | o in d.table :: d.table[o].Live() <==> d.table[o].status in {Granted, RecallInProgress};
  }

  /** A grant adds one delegation, in the state granted, counted for its client and its directory; asking again finds it. */
  lemma GrantGives(d: DelegState, limits: Limits, x: ServerObject, c: ClientId)
    requires KeysIssued(d) && GrantDir(d, limits, x, c).0.Success? && GrantDir(d, limits, x, c).0.value.NewlyGranted?
    ensures var (r, d') := GrantDir(d, limits, x, c);
            var o := r.value.stateid.other;
            && o !in d.table && d'.table == d.table[o := Deleg(x, c, r.value.stateid.seqid, Granted)]
            && LiveOfClient(d', c) == LiveOfClient(d, c) + {o} && LiveOfDir(d', x) == LiveOfDir(d, x) + {o}
            && d'.next == d.next + 1 && d'.retired == d.retired
            && GrantDir(d', limits, x, c) == (Success(AlreadyHeld), d')
  {
    var (r, d') := GrantDir(d, limits, x, c);
    var o := r.value.stateid.other;
    assert d' == Insert(d, o, Deleg(x, c, 1, Granted));
    OneMoreLive(d, d', o, x, c);
    HeldAlready(d', limits, o, x, c);
  }

  lemma OneMoreLive(d: DelegState, d': DelegState, o: Other, x: ServerObject, c: ClientId)
    requires o !in d.table && d'.table == d.table[o := Deleg(x, c, 1, Granted)]
    ensures LiveOfClient(d', c) == LiveOfClient(d, c) + {o} && LiveOfDir(d', x) == LiveOfDir(d, x) + {o}
  {
  }

  lemma HeldAlready(d: DelegState, limits: Limits, o: Other, x: ServerObject, c: ClientId)
    requires o in d.table && d.table[o] == Deleg(x, c, 1, Granted) && x.Base() !in d.retired
    ensures GrantDir(d, limits, x, c) == (Success(AlreadyHeld), d)
  {
    assert d.table[o].Live();
    assert HoldsLive(d, x, c);
  }

  /** The delegation is out of the table and of both indexes, and every other is as it was. */
  ghost predicate OnlyGone(d: DelegState, d': DelegState, o: Other) {
    && d'.table == d.table - {o} && d'.next == d.next && d'.retired == d.retired
    && (forall x :: At(d'.byDir, x) == At(d.byDir, x) - {o}) && (forall c :: At(d'.byClient, c) == At(d.byClient, c) - {o})
  }

  lemma DropIsOnlyGone(d: DelegState, o: Other)
    requires IndexesAgree(d)
    ensures OnlyGone(d, Drop(d, o), o)
  {
    if o in d.table {
      UnindexAt(d.byDir, d.table[o].obj, o);
      UnindexAt(d.byClient, d.table[o].clientid, o);
    } else {
      assert d.table - {o} == d.table;
    }
  }

  /** The stateid names a delegation, at its current seqid or with none given. */
  predicate NamesDeleg(d: DelegState, s: Stateid) {
    s.other in d.table && (s.seqid == 0 || s.seqid == d.table[s.other].seqid)
  }

  /** DELEGRETURN succeeds exactly on a delegation of the client that is not revoked, and takes it out. */
  lemma ReturnRemoves(d: DelegState, limits: Limits, s: Stateid, c: Option<ClientId>)
    requires Inv(d, limits)
    ensures var (status, d') := Return(d, s, c);
            && (status == Ok <==> NamesDeleg(d, s) && c in {None, Some(d.table[s.other].clientid)} && d.table[s.other].status != Revoked)
            && (status == DelegRevoked <==> NamesDeleg(d, s) && c in {None, Some(d.table[s.other].clientid)} && d.table[s.other].status == Revoked)
            && (if status == Ok then OnlyGone(d, d', s.other) else d' == d)
  {
    DropIsOnlyGone(d, s.other);
  }

  /** FREE_STATEID succeeds exactly on a delegation that is not live, and takes it out. */
  lemma FreeRemoves(d: DelegState, limits: Limits, s: Stateid)
    requires Inv(d, limits)
    ensures var (status, d') := FreeDeleg(d, s);
            && (status == Ok <==> NamesDeleg(d, s) && d.table[s.other].status in {Returned, Revoked})
            && (status == LocksHeld <==> NamesDeleg(d, s) && d.table[s.other].status in {Granted, RecallInProgress})
            && (if status == Ok then OnlyGone(d, d', s.other) else d' == d)
  {
    DropIsOnlyGone(d, s.other);
  }

  /** A returned delegation is settled in every later run. */
  lemma ReturnedForGood(d: DelegState, limits: Limits, s: Stateid, c: Option<ClientId>, actions: seq<Action>)
    requires Inv(d, limits) && Return(d, s, c).0 == Ok
    ensures Settled(Run(Return(d, s, c).1, limits, actions), s.other)
  {
    assert Return(d, s, c).1 == Step(d, limits, ReturnOne(s, c));
    GoneForGood(d, limits, ReturnOne(s, c), s.other, actions);
  }

  lemma FreedForGood(d: DelegState, limits: Limits, s: Stateid, actions: seq<Action>)
    requires Inv(d, limits) && FreeDeleg(d, s).0 == Ok
    ensures Settled(Run(FreeDeleg(d, s).1, limits, actions), s.other)
  {
    assert FreeDeleg(d, s).1 == Step(d, limits, FreeOne(s));
    GoneForGood(d, limits, FreeOne(s), s.other, actions);
  }

  lemma GoneForGood(d: DelegState, limits: Limits, a: Action, o: Other, actions: seq<Action>)
    requires Inv(d, limits) && o in d.table && !a.GrantOne? && o !in Step(d, limits, a).table
    ensures Settled(Run(Step(d, limits, a), limits, actions), o)
  {
    StepKeepsInv(d, limits, a);
    StepFades(d, limits, a);
    SettledForever(Step(d, limits, a), limits, actions, o);
  }

  /** A returned delegation makes room: its client is granted the directory again, unless it is retired or being recalled. */
  lemma ReturnMakesRoom(d: DelegState, limits: Limits, s: Stateid, c: ClientId)
    requires Inv(d, limits) && Return(d, s, Some(c)).0 == Ok && d.table[s.other].status == Granted
    requires d.table[s.other].obj.Base() !in d.retired && !RecallUnderWay(d, d.table[s.other].obj)
    ensures var r := GrantDir(Return(d, s, Some(c)).1, limits, d.table[s.other].obj, c).0;
            r.Success? && r.value.NewlyGranted?
  {
    ReturnRemoves(d, limits, s, Some(c));
    OneFewerLive(d, Return(d, s, Some(c)).1, limits, s.other);
  }

  lemma OneFewerLive(d: DelegState, d': DelegState, limits: Limits, o: Other)
    requires OnePerDirectory(d) && WithinLimits(d, limits) && o in d.table && d.table[o].Live()
    requires d'.table == d.table - {o} && d'.retired == d.retired
    requires d.table[o].obj.Base() !in d.retired && !RecallUnderWay(d, d.table[o].obj)
    ensures var r := GrantDir(d', limits, d.table[o].obj, d.table[o].clientid).0; r.Success? && r.value.NewlyGranted?
  {
    var x, c := d.table[o].obj, d.table[o].clientid;
    assert LiveSet(d') == LiveSet(d) - {o} && o in LiveSet(d);
    assert LiveOfClient(d', c) == LiveOfClient(d, c) - {o} && o in LiveOfClient(d, c);
    assert !HoldsLive(d', x, c) && !RecallUnderWay(d', x);
  }

  /** Revocation marks the delegation it names, which can then be freed and no longer returned; no other changes. */
  lemma RevokeMarks(d: DelegState, limits: Limits, s: Stateid)
    requires Inv(d, limits)
    ensures var (status, d') := Revoke(d, s);
            && (status == Ok <==> NamesDeleg(d, s))
            && (status != Ok ==> d' == d)
            && (status == Ok ==>
                  && d' == d.(table := d'.table) && d'.table == d.table[s.other := d.table[s.other].(status := Revoked)]
                  && Return(d', s, None).0 == DelegRevoked && FreeDeleg(d', s).0 == Ok)
  {
  }

  /** A recall marks exactly the granted delegations of the directory, except the excluded client's; until they are settled nothing of it is granted. */
  lemma RecallMarks(d: DelegState, limits: Limits, x: ServerObject, excluded: Option<ClientId>, o: Other)
    requires Inv(d, limits) && o in d.table
    ensures var d' := BeginRecall(d, x, excluded);
            && o in d'.table
            && d'.table[o] == (if d.table[o].obj == x && d.table[o].status == Granted && excluded != Some(d.table[o].clientid)
                               then Deleg(x, d.table[o].clientid, d.table[o].seqid, RecallInProgress) else d.table[o])
            && (o in Selected(d, x, excluded) <==> d'.table[o].obj == x && d'.table[o].status == RecallInProgress)
            && (o in Selected(d, x, excluded) ==>
                  forall c :: var r := GrantDir(d', limits, x, c).0; r.Success? ==> !r.value.NewlyGranted?)
  {
    var d' := BeginRecall(d, x, excluded);
    if o in Selected(d, x, excluded) {
      assert RecallUnderWay(d', x);
    }
  }

  /** Losing a client, and a sweep, take out exactly what belongs to it. */
  lemma DropsExactly(d: DelegState, limits: Limits, c: ClientId, ids: set<ObjectId>, o: Other)
    requires Inv(d, limits)
    ensures var d' := Step(d, limits, LoseClient(c));
            && (o in d'.table <==> o in d.table && d.table[o].clientid != c)
            && (o in d'.table ==> d'.table[o] == d.table[o])
    ensures var d' := Step(d, limits, Sweep(ids));
            && (o in d'.table <==> o in d.table && d.table[o].obj.Base() !in ids)
            && (o in d'.table ==> d'.table[o] == d.table[o])
  {
    assert o in d.table ==> (o in At(d.byClient, c) <==> d.table[o].clientid == c);
  }

  /** The delegation the action is about. */
  predicate Concerned(d: DelegState, a: Action, o: Other)
    requires o in d.table
  {
    match a
    case ReturnOne(s, _) => s.other == o
    case FreeOne(s) => s.other == o
    case RevokeOne(s) => s.other == o
    case Recall(x, excluded) => d.table[o].obj == x && excluded != Some(d.table[o].clientid)
    case LoseClient(c) => d.table[o].clientid == c
    case Sweep(ids) => d.table[o].obj.Base() in ids
    case _ => false
  }

  /** A step leaves every delegation alone that it is not about. */
  lemma OthersUntouched(d: DelegState, limits: Limits, a: Action, o: Other)
    requires Inv(d, limits) && o in d.table && !Concerned(d, a, o)
    ensures o in Step(d, limits, a).table && Step(d, limits, a).table[o] == d.table[o]
  {
    match a
    case GrantOne(x, c) => GrantAdds(d, limits, x, c);
    case ReturnOne(s, c) => ReturnRemoves(d, limits, s, c);
    case FreeOne(s) => FreeRemoves(d, limits, s);
    case RevokeOne(s) => RevokeMarks(d, limits, s);
    case Recall(x, excluded) =>
    case LoseClient(c) => DropsExactly(d, limits, c, {}, o);
    case Sweep(ids) => DropsExactly(d, limits, 0, ids, o);
    case _ =>
  }
}
