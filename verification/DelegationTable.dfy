/**
  The delegation table as the server keeps it, updated in place, and the procedure that recalls
  the delegations of a directory while other requests go on.
 */
module DelegationTable {
  import opened NfsTypes
  import opened Stateids
  import opened Delegations

  /** One delegation a recall selected. */
  datatype RecallItem = RecallItem(stateid: Stateid, clientid: ClientId, sendCallback: bool)

  /** What other requests do: in the gap before each callback, poll, sleep and revocation. */
  datatype Env = Env(
    callbacks: nat -> seq<Action>,
    polls: (nat, nat) -> seq<Action>,
    sleeps: nat -> seq<Action>,
    revokes: nat -> seq<Action>)

  /** One step while a recall goes on: a revocation by the recall itself, or another request. */
  datatype Event = Own(s: Stateid) | Theirs(a: Action)

  function Doing(e: Event): Action {
    match e
    case Own(s) => RevokeOne(s)
    case Theirs(a) => a
  }

  ghost function Replay(d: DelegState, limits: Limits, trace: seq<Event>): DelegState {
    if trace == [] then d else Step(Replay(d, limits, trace[..|trace| - 1]), limits, Doing(trace[|trace| - 1]))
  }

  function AllTheirs(actions: seq<Action>): (trace: seq<Event>)
    ensures |trace| == |actions| && forall i | 0 <= i < |actions| :: trace[i] == Theirs(actions[i])
  {
    seq(|actions|, i requires 0 <= i < |actions| => Theirs(actions[i]))
  }

  lemma ReplayOne(d: DelegState, limits: Limits, trace: seq<Event>, e: Event)
    ensures Replay(d, limits, trace + [e]) == Step(Replay(d, limits, trace), limits, Doing(e))
  {
    assert (trace + [e])[..|trace|] == trace;
  }

  lemma {:induction false} ReplayTheirs(d: DelegState, limits: Limits, trace: seq<Event>, actions: seq<Action>)
    ensures Replay(d, limits, trace + AllTheirs(actions)) == Run(Replay(d, limits, trace), limits, actions)
    decreases |actions|
  {
    if actions == [] {
      assert trace + AllTheirs(actions) == trace;
    } else {
      ReplayOne(d, limits, trace, Theirs(actions[0]));
      ReplayTheirs(d, limits, trace + [Theirs(actions[0])], actions[1..]);
      TheirsFront(trace, actions);
    }
  }

  lemma TheirsFront(trace: seq<Event>, actions: seq<Action>)
    requires actions != []
    ensures trace + AllTheirs(actions) == (trace + [Theirs(actions[0])]) + AllTheirs(actions[1..])
  {
  }

  /** The recall's own revocations in the trace are all of these stateids. */
  ghost predicate OwnOnly(trace: seq<Event>, allowed: set<Stateid>) {
    forall e | e in trace && e.Own? :: e.s in allowed
  }

  lemma OwnOnlyTheirs(trace: seq<Event>, actions: seq<Action>, allowed: set<Stateid>)
    requires OwnOnly(trace, allowed)
    ensures OwnOnly(trace + AllTheirs(actions), allowed)
  {
  }

  lemma DropAllNone(d: DelegState)
    ensures DropAll(d, {}) == d
  {
    assert forall x | x in d.byDir :: d.byDir[x] - {} == d.byDir[x];
    assert forall c | c in d.byClient :: d.byClient[c] - {} == d.byClient[c];
  }

  lemma UnindexMore<K>(m: map<K, set<Other>>, gone: set<Other>, k: K, o: Other)
    requires o !in gone && o in At(m, k) && forall j | o in At(m, j) :: j == k
    ensures Unindex(UnindexAll(m, gone), k, o) == UnindexAll(m, gone + {o})
  {
    var a, b := Unindex(UnindexAll(m, gone), k, o), UnindexAll(m, gone + {o});
    assert m[k] - (gone + {o}) == (m[k] - gone) - {o};
    forall j | j in m && j != k
      ensures j in a <==> j in b
      ensures j in a ==> a[j] == b[j]
    {
      assert o !in At(m, j);
      assert m[j] - (gone + {o}) == m[j] - gone && m[j] * (gone + {o}) == m[j] * gone;
    }
  }

  /** Dropping one more delegation is dropping a larger set. */
  lemma DropOneMore(d: DelegState, gone: set<Other>, o: Other)
    requires IndexesAgree(d) && o in d.table && o !in gone
    ensures Drop(DropAll(d, gone), o) == DropAll(d, gone + {o})
  {
    UnindexMore(d.byDir, gone, d.table[o].obj, o);
    UnindexMore(d.byClient, gone, d.table[o].clientid, o);
    assert d.table - gone - {o} == d.table - (gone + {o});
  }

  class DelegationTable {
    const limits: Limits
    var table: map<Other, Deleg>
    var byDir: map<ServerObject, set<Other>>
    var byClient: map<ClientId, set<Other>>
    var next: nat
    var retired: set<ObjectId>

    function State(): DelegState
      reads this
    {
      DelegState(table, byDir, byClient, next, retired)
    }

    ghost predicate Valid()
      reads this
    {
      Inv(State(), limits)
    }

    constructor (limits: Limits)
      ensures Valid() && State() == EMPTY && this.limits == limits
    {
      this.limits := limits;
      table, byDir, byClient, next, retired := map[], map[], map[], 1, {};
      new;
      EveryRunAgrees(limits, []);
    }

    /** Out of the table, then out of each index, dropping an index entry when it becomes empty. */
    method RemoveDelegation(o: Other)
      modifies this
      ensures State() == Drop(old(State()), o)
    {
      if o !in table {
        return;
      }
      var deleg := table[o];
      table := table - {o};
      if deleg.obj in byDir {
        byDir := byDir[deleg.obj := byDir[deleg.obj] - {o}];
        if byDir[deleg.obj] == {} {
          byDir := byDir - {deleg.obj};
        }
      }
      if deleg.clientid in byClient {
        byClient := byClient[deleg.clientid := byClient[deleg.clientid] - {o}];
        if byClient[deleg.clientid] == {} {
          byClient := byClient - {deleg.clientid};
        }
      }
    }

    method RemoveClientDelegations(clientid: ClientId)
      requires Valid()
      modifies this
      ensures Valid() && State() == PurgeClient(old(State()), clientid)
    {
      ghost var d := State();
      RemoveAll(At(byClient, clientid));
      assert State() == Step(d, limits, LoseClient(clientid));
      StepKeepsInv(d, limits, LoseClient(clientid));
    }

    method RemoveAll(all: set<Other>)
      requires IndexesAgree(State()) && all <= table.Keys
      modifies this
      ensures State() == DropAll(old(State()), all)
    {
      ghost var d := State();
      var others := all;
      ghost var gone: set<Other> := {};
      DropAllNone(d);
      while others != {}
        invariant gone <= all && others == all - gone
        invariant State() == DropAll(d, gone)
        decreases others
      {
        var o :| o in others;
        RemoveDelegation(o);
        assert State() == Drop(DropAll(d, gone), o);
        DropOneMore(d, gone, o);
        gone := gone + {o};
        others := others - {o};
      }
      assert gone == all;
    }

    /** How many of these delegations are live. */
    method CountLive(others: set<Other>) returns (count: nat)
      ensures count == |set o | o in others && o in table && table[o].Live()|
    {
      count := 0;
      var left := others;
      ghost var counted: set<Other> := {};
      while left != {}
        invariant left <= others && counted == set o | o in others - left && o in table && table[o].Live()
        invariant count == |counted|
        decreases |left|
      {
        var o :| o in left;
        left := left - {o};
        if o in table && table[o].Live() {
          counted := counted + {o};
          count := count + 1;
        }
      }
      assert counted == set o | o in others && o in table && table[o].Live();
    }

    /** Why a delegation is not granted, if so. */
    method CheckGrant(x: ServerObject, clientid: ClientId) returns (refusal: Option<Result<Grant>>)
      requires IndexesAgree(State())
      ensures refusal == GrantRefusal(State(), limits, x, clientid)
    {
      IndexesFind(State(), x, clientid);
      if x.Base() in retired {
        return Some(Failure(Status.Stale));
      }
      var mine := At(byClient, clientid);
      if exists o | o in mine :: o in table && table[o].obj == x && table[o].Live() {
        return Some(Success(AlreadyHeld));
      }
      if exists o | o in At(byDir, x) :: o in table && table[o].status == RecallInProgress {
        return Some(Success(Unavailable));
      }
      var clientCount := CountLive(mine);
      if clientCount >= limits.perClient {
        return Some(Success(Unavailable));
      }
      var total := CountLive(table.Keys);
      assert (set o | o in table.Keys && o in table && table[o].Live()) == LiveSet(State());
      return if total >= limits.total then Some(Success(Unavailable)) else None;
    }

    method GrantDirectoryDelegation(x: ServerObject, clientid: ClientId) returns (r: Result<Grant>)
      requires Valid()
      modifies this
      ensures Valid() && (r, State()) == GrantDir(old(State()), limits, x, clientid)
    {
      ghost var d := State();
      RefusalDecides(d, limits, x, clientid);
      assert Step(d, limits, GrantOne(x, clientid)) == GrantDir(d, limits, x, clientid).1;
      StepKeepsInv(d, limits, GrantOne(x, clientid));
      var refusal := CheckGrant(x, clientid);
      if refusal.Some? {
        return refusal.value;
      }
      var o := Other(next, clientid);
      AddDelegation(o, Deleg(x, clientid, 1, Granted));
      return Success(NewlyGranted(Stateid(1, o)));
    }

    method AddDelegation(o: Other, deleg: Deleg)
      modifies this
      ensures State() == Insert(old(State()), o, deleg)
    {
      next := next + 1;
      table := table[o := deleg];
      byDir := byDir[deleg.obj := At(byDir, deleg.obj) + {o}];
      byClient := byClient[deleg.clientid := At(byClient, deleg.clientid) + {o}];
    }

    method ReturnDelegation(s: Stateid, clientid: Option<ClientId>) returns (status: Status)
      requires Valid()
      modifies this
      ensures Valid() && (status, State()) == Return(old(State()), s, clientid)
    {
      StepKeepsInv(State(), limits, ReturnOne(s, clientid));
      if s.other !in table {
        return BadStateid;
      }
      var deleg := table[s.other];
      status := ValidateSeq(deleg.seqid, s.seqid);
      if status != Ok {
        return;
      }
      if clientid.Some? && deleg.clientid != clientid.value {
        return BadStateid;
      }
      if deleg.status == Revoked {
        return DelegRevoked;
      }
      RemoveDelegation(s.other);
      return Ok;
    }

    method FreeDelegation(s: Stateid) returns (status: Status)
      requires Valid()
      modifies this
      ensures Valid() && (status, State()) == FreeDeleg(old(State()), s)
    {
      StepKeepsInv(State(), limits, FreeOne(s));
      if s.other !in table {
        return BadStateid;
      }
      status := ValidateSeq(table[s.other].seqid, s.seqid);
      if status != Ok {
        return;
      }
      if table[s.other].Live() {
        return LocksHeld;
      }
      RemoveDelegation(s.other);
      return Ok;
    }

    method RevokeDelegation(s: Stateid) returns (status: Status)
      requires Valid()
      modifies this
      ensures Valid() && (status, State()) == Revoke(old(State()), s)
    {
      StepKeepsInv(State(), limits, RevokeOne(s));
      if s.other !in table {
        return BadStateid;
      }
      status := ValidateSeq(table[s.other].seqid, s.seqid);
      if status == Ok {
        table := table[s.other := table[s.other].(status := Revoked)];
      }
    }

    /** Mark the granted delegations of x as being recalled, and list those that are. */
    method BeginDirectoryRecall(x: ServerObject, excluded: Option<ClientId>) returns (recalls: seq<RecallItem>)
      requires Valid()
      modifies this
      ensures Valid() && State() == BeginRecall(old(State()), x, excluded)
      ensures forall r | r in recalls :: ItemOf(old(State()), r)
      ensures Listed(recalls) == Selected(old(State()), x, excluded) && EachOnce(recalls)
    {
      ghost var d := State();
      BegunKeeps(d, limits, x, excluded);
      recalls := RecallEach(At(byDir, x), x, excluded);
    }

    method RecallEach(all: set<Other>, x: ServerObject, excluded: Option<ClientId>) returns (recalls: seq<RecallItem>)
      requires forall o | o in all :: o in table && table[o].obj == x
      modifies this
      ensures State() == RecallSome(old(State()), all, excluded)
      ensures forall r | r in recalls :: ItemOf(old(State()), r)
      ensures Listed(recalls) == Selected(old(State()), x, excluded) * all && EachOnce(recalls)
    {
      ghost var d := State();
      var others := all;
      recalls := [];
      ghost var seen: set<Other> := {};
      RecallNone(d, excluded);
      while others != {}
        invariant seen <= all && others == all - seen
        invariant State() == RecallSome(d, seen, excluded)
        invariant Collected(d, x, excluded, seen, recalls)
        decreases others
      {
        var o :| o in others;
        var item := RecallOne(o, excluded, d, seen);
        CollectMore(d, x, excluded, seen, o, recalls);
        if item.Some? {
          recalls := recalls + [item.value];
        }
        seen := seen + {o};
        others := others - {o};
      }
      assert seen == all;
    }

    /** One turn of the loop: nothing, or an item with its callback flag. */
    method RecallOne(o: Other, excluded: Option<ClientId>, ghost d: DelegState, ghost seen: set<Other>)
      returns (item: Option<RecallItem>)
      requires o in d.table && o !in seen && State() == RecallSome(d, seen, excluded)
      modifies this
      ensures State() == RecallSome(d, seen + {o}, excluded)
      ensures item == if d.table[o].status == RecallInProgress || (d.table[o].status == Granted && excluded != Some(d.table[o].clientid))
                      then Some(RecallItem(Stateid(d.table[o].seqid, o), d.table[o].clientid, d.table[o].status == Granted))
                      else None
    {
      var deleg := table[o];
      match deleg.status {
        case Granted =>
          if excluded == Some(deleg.clientid) {
            return None;
          }
          table := table[o := deleg.(status := RecallInProgress)];
          return Some(RecallItem(Stateid(deleg.seqid, o), deleg.clientid, true));
        case RecallInProgress =>
          return Some(RecallItem(Stateid(deleg.seqid, o), deleg.clientid, false));
        case _ =>
          return None;
      }
    }

    /** The sweep of a retirement, in the order the server makes it. */
    method InvalidateDelegations(ids: set<ObjectId>)
      requires Valid()
      modifies this
      ensures Valid() && State() == Invalidate(old(State()), ids)
    {
      ghost var d := State();
      assert Step(d, limits, Sweep(ids)) == Invalidate(d, ids);
      StepKeepsInv(d, limits, Sweep(ids));
      var dropped := set o | o in table && table[o].obj.Base() in ids;
      table := table - dropped;
      byClient := map c | c in byClient :: byClient[c] - dropped;
      byDir := map x | x in byDir && x.Base() !in ids :: byDir[x];
    }

    // ---- Recall while other requests go on ----

    /** What any other requests do between two steps of a recall. */
    method Others(actions: seq<Action>)
      requires Valid()
      modifies this
      ensures Valid() && State() == Run(old(State()), limits, actions)
      decreases |actions|
    {
      if actions != [] {
        ghost var d := State();
        Other1(actions[0]);
        Others(actions[1..]);
        assert State() == Run(d, limits, actions);
      }
    }

    method Other1(a: Action)
      requires Valid()
      modifies this
      ensures Valid() && State() == Step(old(State()), limits, a)
    {
      if a.GrantOne? || a.ReturnOne? || a.FreeOne? || a.RevokeOne? {
        Request(a);
      } else {
        Upkeep(a);
      }
    }

    method Request(a: Action)
      requires Valid() && (a.GrantOne? || a.ReturnOne? || a.FreeOne? || a.RevokeOne?)
      modifies this
      ensures Valid() && State() == Step(old(State()), limits, a)
    {
      if a.GrantOne? {
        var _ := GrantDirectoryDelegation(a.x, a.c);
      } else if a.ReturnOne? {
        var _ := ReturnDelegation(a.s, a.clientid);
      } else if a.FreeOne? {
        var _ := FreeDelegation(a.s);
      } else {
        var _ := RevokeDelegation(a.s);
      }
    }

    method Upkeep(a: Action)
      requires Valid() && !(a.GrantOne? || a.ReturnOne? || a.FreeOne? || a.RevokeOne?)
      modifies this
      ensures Valid() && State() == Step(old(State()), limits, a)
    {
      if a.Recall? {
        var _ := BeginDirectoryRecall(a.x, a.excluded);
      } else if a.LoseClient? {
        RemoveClientDelegations(a.c);
      } else if a.MarkRetired? {
        Mark(a.id);
      } else if a.Sweep? {
        InvalidateDelegations(a.ids);
      } else {
        SkipCounter();
      }
    }

    method Mark(id: ObjectId)
      requires Valid()
      modifies this
      ensures Valid() && State() == old(State()).(retired := old(State()).retired + {id})
    {
      StepKeepsInv(State(), limits, MarkRetired(id));
      retired := retired + {id};
    }

    method SkipCounter()
      requires Valid()
      modifies this
      ensures Valid() && State() == old(State()).(next := old(State()).next + 1)
    {
      StepKeepsInv(State(), limits, IssueElsewhere);
      next := next + 1;
    }

    /** Whether a recalled delegation is no longer outstanding. */
    method RecallComplete(s: Stateid) returns (complete: bool)
      ensures complete == Settled(State(), s.other)
    {
      complete := !(s.other in table && table[s.other].Live());
    }

    /** Revoking by timeout or failed callback settles the delegation, if it is still there. */
    method RevokeRecalled(s: Stateid)
      requires Valid() && s.other.counter < next && s.seqid == 1
      modifies this
      ensures Valid() && State() == Revoke(old(State()), s).1 && Settled(State(), s.other) && next == old(next)
    {
      var _ := RevokeDelegation(s);
    }

    /** Other requests run, and are added to the trace. */
    method Meanwhile(actions: seq<Action>, ghost d: DelegState, ghost before: seq<Event>) returns (ghost trace: seq<Event>)
      requires Valid() && State() == Replay(d, limits, before)
      modifies this
      ensures Valid() && State() == Run(old(State()), limits, actions) && next >= old(next)
      ensures trace == before + AllTheirs(actions) && State() == Replay(d, limits, trace)
    {
      trace := before + AllTheirs(actions);
      ReplayTheirs(d, limits, before, actions);
      RunNext(State(), limits, actions);
      Others(actions);
    }

    /** The recall revokes one delegation, and that is added to the trace. */
    method RevokeOwn(s: Stateid, ghost d: DelegState, ghost before: seq<Event>) returns (ghost trace: seq<Event>)
      requires Valid() && s.other.counter < next && s.seqid == 1 && State() == Replay(d, limits, before)
      modifies this
      ensures Valid() && State() == Revoke(old(State()), s).1 && Settled(State(), s.other) && next == old(next)
      ensures trace == before + [Own(s)] && State() == Replay(d, limits, trace)
    {
      trace := before + [Own(s)];
      ReplayOne(d, limits, before, Own(s));
      RevokeRecalled(s);
    }

    /**
      Recall the delegations of x. Between any two of its accesses to the table other requests
      run, as `env` says. `named` says whether x has a filehandle, `reachable` which callbacks
      succeed, and `now(k)` is the k-th reading of the clock, which at some point reaches the
      deadline. When it returns, everything it selected is returned, revoked or gone; and it has
      itself revoked only what could not be called back or was still out at the deadline.
     */
    method RecallDirectoryDelegations(x: ServerObject, excluded: Option<ClientId>, named: bool, reachable: Other -> bool,
                                      env: Env, now: nat -> nat, deadline: nat, ghost enough: nat)
      returns (recalls: seq<RecallItem>, ghost trace: seq<Event>, ghost turns: nat)
      requires Valid() && Reaches(now, deadline, enough)
      modifies this
      ensures Valid()
      ensures Listed(recalls) == Selected(old(State()), x, excluded)
      ensures named ==> forall o | o in Selected(old(State()), x, excluded) :: Settled(State(), o)
      ensures State() == Replay(BeginRecall(old(State()), x, excluded), limits, trace)
      ensures Early(now, deadline, turns)
      ensures OwnOnly(trace, Unreachable(recalls, reachable) + Ids(StateidsOf(recalls), now(turns) >= deadline))
      ensures !named ==> trace == []
    {
      ghost var d := State();
      recalls := BeginDirectoryRecall(x, excluded);
      ghost var begun := State();
      trace, turns := [], 0;
      if recalls == [] || !named {
        return;
      }
      ItemsRecalled(d, recalls);
      trace := SendCallbacks(recalls, reachable, env, begun);
      var outstanding := StateidsOf(recalls);
      ghost var later;
      later, turns := Wait(outstanding, env, now, deadline, enough, begun, trace);
      OwnAfterWait(Unreachable(recalls, reachable), Ids(outstanding, now(turns) >= deadline), trace, later);
      trace := later;
      forall o | o in Selected(d, x, excluded)
        ensures Settled(State(), o)
      {
        ListedIds(recalls, o);
      }
    }

    method SendCallbacks(recalls: seq<RecallItem>, reachable: Other -> bool, env: Env, ghost d: DelegState)
      returns (ghost trace: seq<Event>)
      requires Valid() && Recalled(StateidsOf(recalls), next) && State() == d
      modifies this
      ensures Valid() && next >= old(next)
      ensures State() == Replay(d, limits, trace) && OwnOnly(trace, Unreachable(recalls, reachable))
      ensures CalledBack(State(), recalls, |recalls|, reachable)
    {
      trace := [];
      for i := 0 to |recalls|
        invariant Valid() && next >= old(next)
        invariant State() == Replay(d, limits, trace) && OwnOnly(trace, Unreachable(recalls, reachable))
        invariant CalledBack(State(), recalls, i, reachable)
      {
        StillRecalled(StateidsOf(recalls), old(next), next);
        trace := SendCallback(recalls, i, reachable, env, d, trace);
      }
    }

    method SendCallback(recalls: seq<RecallItem>, i: nat, reachable: Other -> bool, env: Env, ghost d: DelegState, ghost before: seq<Event>)
      returns (ghost trace: seq<Event>)
      requires Valid() && i < |recalls| && Recalled(StateidsOf(recalls), next)
      requires State() == Replay(d, limits, before) && OwnOnly(before, Unreachable(recalls, reachable))
      requires CalledBack(State(), recalls, i, reachable)
      modifies this
      ensures Valid() && next >= old(next)
      ensures State() == Replay(d, limits, trace) && OwnOnly(trace, Unreachable(recalls, reachable))
      ensures CalledBack(State(), recalls, i + 1, reachable)
    {
      var r := recalls[i];
      trace := before;
      assert StateidsOf(recalls)[i] == r.stateid;
      if r.sendCallback {
        ghost var was := State();
        trace := Meanwhile(env.callbacks(i), d, trace);
        OwnOnlyTheirs(before, env.callbacks(i), Unreachable(recalls, reachable));
        CalledStays(was, limits, env.callbacks(i), recalls, i, reachable);
        if !reachable(r.stateid.other) {
          CalledThenRevoked(State(), limits, recalls, i, reachable);
          trace := RevokeOwn(r.stateid, d, trace);
        }
      }
    }

    /** The wait loop: poll, and at the deadline revoke what is left. */
    method Wait(start: seq<Stateid>, env: Env, now: nat -> nat, deadline: nat, ghost enough: nat, ghost d: DelegState, ghost before: seq<Event>)
      returns (ghost trace: seq<Event>, ghost turns: nat)
      requires Valid() && Recalled(start, next) && Reaches(now, deadline, enough)
      requires State() == Replay(d, limits, before)
      modifies this
      ensures Valid() && forall s | s in start :: Settled(State(), s.other)
      ensures State() == Replay(d, limits, trace) && Grown(before, trace, Ids(start, now(turns) >= deadline))
      ensures Early(now, deadline, turns)
    {
      var outstanding, turn, over := start, 0, false;
      trace := before;
      while !over
        invariant Valid() && Recalled(start, next)
        invariant Awaits(State(), start, if over then [] else outstanding)
        invariant forall s | s in outstanding :: s in start
        invariant State() == Replay(d, limits, trace) && Grown(before, trace, Ids(start, over && now(turn) >= deadline))
        invariant Early(now, deadline, turn) && turn <= enough
        decreases !over, enough - turn
      {
        ghost var more;
        ghost var was := next;
        over, outstanding, more := Turn(start, outstanding, env, turn, now, deadline, d, trace);
        Extended(before, trace, more, Ids(start, false), Ids(start, over && now(turn) >= deadline));
        trace := more;
        StillRecalled(start, was, next);
        if !over {
          EarlyStill(now, deadline, enough, turn);
          turn := turn + 1;
        }
      }
      turns := turn;
    }

    /** One turn: poll; at the deadline revoke what is left, and before it sleep. */
    method Turn(start: seq<Stateid>, outstanding: seq<Stateid>, env: Env, turn: nat, now: nat -> nat, deadline: nat,
                ghost d: DelegState, ghost before: seq<Event>)
      returns (over: bool, remaining: seq<Stateid>, ghost trace: seq<Event>)
      requires Valid() && Recalled(start, next) && State() == Replay(d, limits, before)
      requires Awaits(State(), start, outstanding) && forall s | s in outstanding :: s in start
      modifies this
      ensures Valid() && next >= old(next) && State() == Replay(d, limits, trace)
      ensures forall s | s in remaining :: s in start
      ensures (over || now(turn) < deadline) && Awaits(State(), start, if over then [] else remaining)
      ensures Grown(before, trace, Ids(start, over && now(turn) >= deadline))
    {
      remaining, trace := Poll(start, outstanding, (k: nat) => env.polls(turn, k), d, before);
      over := true;
      if remaining == [] {
        return;
      }
      StillRecalled(start, old(next), next);
      ghost var more;
      if now(turn) >= deadline {
        more := RevokeAll(start, remaining, env.revokes, d, trace);
        Extended(before, trace, more, {}, Ids(start, true));
      } else {
        over := false;
        more := Interrupt(start, remaining, env.sleeps(turn), d, trace);
        Extended(before, trace, more, {}, {});
      }
      trace := more;
    }

    /** Other requests run; what was settled stays settled. */
    method Interrupt(start: seq<Stateid>, outstanding: seq<Stateid>, actions: seq<Action>, ghost d: DelegState, ghost before: seq<Event>)
      returns (ghost trace: seq<Event>)
      requires Valid() && Recalled(start, next) && State() == Replay(d, limits, before)
      requires Awaits(State(), start, outstanding)
      modifies this
      ensures Valid() && next >= old(next)
      ensures Awaits(State(), start, outstanding)
      ensures State() == Replay(d, limits, trace) && Grown(before, trace, {})
    {
      ghost var was := State();
      forall s | s in start && Settled(was, s.other)
        ensures Settled(Run(was, limits, actions), s.other)
      {
        SettledForever(was, limits, actions, s.other);
      }
      trace := Meanwhile(actions, d, before);
      assert trace[|before|..] == AllTheirs(actions);
    }

    method Poll(start: seq<Stateid>, outstanding: seq<Stateid>, others: nat -> seq<Action>, ghost d: DelegState, ghost before: seq<Event>)
      returns (remaining: seq<Stateid>, ghost trace: seq<Event>)
      requires Valid() && Recalled(start, next) && State() == Replay(d, limits, before)
      requires Awaits(State(), start, outstanding)
      modifies this
      ensures Valid() && next >= old(next)
      ensures forall s | s in remaining :: s in outstanding
      ensures Awaits(State(), start, remaining)
      ensures State() == Replay(d, limits, trace) && Grown(before, trace, {})
    {
      remaining := [];
      trace := before;
      for i := 0 to |outstanding|
        invariant Valid() && next >= old(next)
        invariant forall s | s in remaining :: s in outstanding
        invariant Awaits(State(), start, remaining + outstanding[i..])
        invariant State() == Replay(d, limits, trace) && Grown(before, trace, {})
      {
        ghost var more := Interrupt(start, remaining + outstanding[i..], others(i), d, trace);
        Extended(before, trace, more, {}, {});
        trace := more;
        var s := outstanding[i];
        var complete := RecallComplete(s);
        assert outstanding[i..] == [s] + outstanding[i + 1..];
        if !complete {
          remaining := remaining + [s];
        }
      }
      assert outstanding[|outstanding|..] == [];
    }

    method RevokeAll(start: seq<Stateid>, remaining: seq<Stateid>, others: nat -> seq<Action>, ghost d: DelegState, ghost before: seq<Event>)
      returns (ghost trace: seq<Event>)
      requires Valid() && Recalled(start, next) && State() == Replay(d, limits, before)
      requires Awaits(State(), start, remaining)
      requires forall s | s in remaining :: s in start
      modifies this
      ensures Valid() && next >= old(next) && Awaits(State(), start, [])
      ensures State() == Replay(d, limits, trace) && Grown(before, trace, Ids(start, true))
    {
      trace := before;
      for i := 0 to |remaining|
        invariant Valid() && next >= old(next)
        invariant Awaits(State(), start, remaining[i..])
        invariant State() == Replay(d, limits, trace) && Grown(before, trace, Ids(start, true))
      {
        ghost var more := Interrupt(start, remaining[i..], others(i), d, trace);
        var s := remaining[i];
        assert remaining[i..] == [s] + remaining[i + 1..];
        ghost var was := State();
        StillRecalled(start, old(next), next);
        Extended(before, trace, more, Ids(start, true), Ids(start, true));
        ghost var last := RevokeOwn(s, d, more);
        AwaitsRevoked(was, limits, start, s, remaining[i + 1..]);
        assert last[|more|..] == [Own(s)] && s in Ids(start, true);
        Extended(before, more, last, Ids(start, true), Ids(start, true));
        trace := last;
      }
      assert remaining[|remaining|..] == [];
    }
  }

  /** Of the first i items, those whose callback is due and fails are settled. */
  ghost predicate CalledBack(d: DelegState, recalls: seq<RecallItem>, i: nat, reachable: Other -> bool)
    requires i <= |recalls|
  {
    forall j | 0 <= j < i && recalls[j].sendCallback && !reachable(recalls[j].stateid.other) :: Settled(d, recalls[j].stateid.other)
  }

  lemma StillRecalled(ids: seq<Stateid>, next: nat, next': nat)
    requires Recalled(ids, next) && next <= next'
    ensures Recalled(ids, next')
  {
  }

  lemma {:induction false} CalledStays(d: DelegState, limits: Limits, actions: seq<Action>, recalls: seq<RecallItem>, i: nat, reachable: Other -> bool)
    requires Inv(d, limits) && i <= |recalls| && CalledBack(d, recalls, i, reachable) && Recalled(StateidsOf(recalls), d.next)
    ensures CalledBack(Run(d, limits, actions), recalls, i, reachable)
  {
    forall j | 0 <= j < i && Settled(d, recalls[j].stateid.other)
      ensures Settled(Run(d, limits, actions), recalls[j].stateid.other)
    {
      assert StateidsOf(recalls)[j] == recalls[j].stateid;
      SettledForever(d, limits, actions, recalls[j].stateid.other);
    }
  }

  lemma {:induction false} CalledThenRevoked(d: DelegState, limits: Limits, recalls: seq<RecallItem>, i: nat, reachable: Other -> bool)
    requires Inv(d, limits) && i < |recalls| && CalledBack(d, recalls, i, reachable) && Recalled(StateidsOf(recalls), d.next)
    ensures CalledBack(Revoke(d, recalls[i].stateid).1, recalls, i, reachable)
  {
    forall j | 0 <= j < i && Settled(d, recalls[j].stateid.other)
      ensures Settled(Revoke(d, recalls[i].stateid).1, recalls[j].stateid.other)
    {
      assert StateidsOf(recalls)[j] == recalls[j].stateid;
      StepKeepsSettled(d, limits, RevokeOne(recalls[i].stateid), recalls[j].stateid.other);
    }
  }

  /** What the index lists is what a recall of x is about. */
  lemma BegunKeeps(d: DelegState, limits: Limits, x: ServerObject, excluded: Option<ClientId>)
    requires Inv(d, limits)
    ensures forall o | o in At(d.byDir, x) :: o in d.table && d.table[o].obj == x
    ensures RecallSome(d, At(d.byDir, x), excluded) == BeginRecall(d, x, excluded) && Inv(BeginRecall(d, x, excluded), limits)
    ensures Selected(d, x, excluded) * At(d.byDir, x) == Selected(d, x, excluded)
  {
    RecallAll(d, x, excluded);
    assert BeginRecall(d, x, excluded) == Step(d, limits, Recall(x, excluded));
    StepKeepsInv(d, limits, Recall(x, excluded));
  }

  /** What was to be recalled is settled, except what is outstanding. */
  ghost predicate Awaits(d: DelegState, start: seq<Stateid>, outstanding: seq<Stateid>) {
    forall s | s in start :: s in outstanding || Settled(d, s.other)
  }

  lemma AwaitsRevoked(d: DelegState, limits: Limits, start: seq<Stateid>, s: Stateid, rest: seq<Stateid>)
    requires Inv(d, limits) && Recalled(start, d.next) && Awaits(d, start, [s] + rest) && Settled(Revoke(d, s).1, s.other)
    ensures Awaits(Revoke(d, s).1, start, rest)
  {
    forall q | q in start && q !in rest
      ensures Settled(Revoke(d, s).1, q.other)
    {
      if q != s {
        StepKeepsSettled(d, limits, RevokeOne(s), q.other);
      }
    }
  }

  /** From the given reading on, the clock is at the deadline or past it. */
  ghost predicate Reaches(now: nat -> nat, deadline: nat, enough: nat) {
    forall k | k >= enough :: now(k) >= deadline
  }

  /** The first readings of the clock are all before the deadline. */
  ghost predicate Early(now: nat -> nat, deadline: nat, turns: nat) {
    forall k: nat | k < turns :: now(k) < deadline
  }

  lemma EarlyStill(now: nat -> nat, deadline: nat, enough: nat, turn: nat)
    requires Reaches(now, deadline, enough) && Early(now, deadline, turn) && now(turn) < deadline
    ensures turn < enough && Early(now, deadline, turn + 1)
  {
  }

  /** The trace goes on from `before`, with own revocations only of what is allowed. */
  ghost predicate Grown(before: seq<Event>, trace: seq<Event>, allowed: set<Stateid>) {
    before <= trace && OwnOnly(trace[|before|..], allowed)
  }

  lemma Extended(before: seq<Event>, trace: seq<Event>, more: seq<Event>, was: set<Stateid>, now: set<Stateid>)
    requires Grown(before, trace, was) && was <= now && (Grown(trace, more, {}) || Grown(trace, more, now))
    ensures Grown(before, more, now)
  {
    assert more[|before|..] == trace[|before|..] + more[|trace|..];
  }

  /** The stateids, if they may be revoked. */
  ghost function Ids(ids: seq<Stateid>, late: bool): set<Stateid> {
    if late then set s | s in ids else {}
  }

  /** The stateids of the items whose callback is due and fails. */
  ghost function Unreachable(recalls: seq<RecallItem>, reachable: Other -> bool): set<Stateid> {
    set r | r in recalls && r.sendCallback && !reachable(r.stateid.other) :: r.stateid
  }

  lemma OwnAfterWait(allowed: set<Stateid>, more: set<Stateid>, trace: seq<Event>, later: seq<Event>)
    requires OwnOnly(trace, allowed) && Grown(trace, later, more)
    ensures OwnOnly(later, allowed + more)
  {
    assert later == trace + later[|trace|..];
  }

  ghost function GrantRefusal(d: DelegState, limits: Limits, x: ServerObject, c: ClientId): Option<Result<Grant>> {
    if x.Base() in d.retired then Some(Failure(Status.Stale))
    else if HoldsLive(d, x, c) then Some(Success(AlreadyHeld))
    else if RecallUnderWay(d, x) || |LiveOfClient(d, c)| >= limits.perClient || |LiveSet(d)| >= limits.total
    then Some(Success(Unavailable))
    else None
  }

  lemma RefusalDecides(d: DelegState, limits: Limits, x: ServerObject, c: ClientId)
    ensures GrantDir(d, limits, x, c) == match GrantRefusal(d, limits, x, c)
              case Some(r) => (r, d)
              case None => (Success(NewlyGranted(Stateid(1, Other(d.next, c)))),
                            Insert(d, Other(d.next, c), Deleg(x, c, 1, Granted)))
  {
  }

  /** What the two indexes find is what the table holds. */
  lemma IndexesFind(d: DelegState, x: ServerObject, c: ClientId)
    requires IndexesAgree(d)
    ensures (exists o | o in At(d.byClient, c) :: o in d.table && d.table[o].obj == x && d.table[o].Live()) <==> HoldsLive(d, x, c)
    ensures (exists o | o in At(d.byDir, x) :: o in d.table && d.table[o].status == RecallInProgress) <==> RecallUnderWay(d, x)
    ensures (set o | o in At(d.byClient, c) && o in d.table && d.table[o].Live()) == LiveOfClient(d, c)
  {
  }

  /** The item is of that delegation, with its client; a callback is due unless one was sent before. */
  ghost predicate ItemOf(d: DelegState, r: RecallItem) {
    var o := r.stateid.other;
    && o in d.table && r.stateid.seqid == d.table[o].seqid && r.clientid == d.table[o].clientid
    && (r.sendCallback <==> d.table[o].status == Granted)
  }

  ghost predicate EachOnce(recalls: seq<RecallItem>) {
    forall i, j | 0 <= i < j < |recalls| :: recalls[i].stateid.other != recalls[j].stateid.other
  }

  /** The table after the loop has visited `seen`. */
  function RecallSome(d: DelegState, seen: set<Other>, excluded: Option<ClientId>): DelegState {
    d.(table := map o | o in d.table ::
         if o in seen && d.table[o].status == Granted && excluded != Some(d.table[o].clientid)
         then d.table[o].(status := RecallInProgress) else d.table[o])
  }

  function Listed(recalls: seq<RecallItem>): set<Other> {
    if recalls == [] then {} else Listed(recalls[..|recalls| - 1]) + {recalls[|recalls| - 1].stateid.other}
  }

  lemma RecallNone(d: DelegState, excluded: Option<ClientId>)
    ensures RecallSome(d, {}, excluded) == d
  {
  }

  lemma RecallAll(d: DelegState, x: ServerObject, excluded: Option<ClientId>)
    requires IndexesAgree(d)
    ensures RecallSome(d, At(d.byDir, x), excluded) == BeginRecall(d, x, excluded)
    ensures Selected(d, x, excluded) * At(d.byDir, x) == Selected(d, x, excluded)
  {
  }

  /** The items of the selected delegations among those seen, each once. */
  ghost predicate Collected(d: DelegState, x: ServerObject, excluded: Option<ClientId>, seen: set<Other>, recalls: seq<RecallItem>) {
    && (forall r | r in recalls :: ItemOf(d, r))
    && Listed(recalls) == Selected(d, x, excluded) * seen
    && EachOnce(recalls) && (forall i | 0 <= i < |recalls| :: recalls[i].stateid.other in seen)
  }

  function ItemFor(d: DelegState, o: Other): RecallItem
    requires o in d.table
  {
    RecallItem(Stateid(d.table[o].seqid, o), d.table[o].clientid, d.table[o].status == Granted)
  }

  lemma CollectMore(d: DelegState, x: ServerObject, excluded: Option<ClientId>, seen: set<Other>, o: Other, recalls: seq<RecallItem>)
    requires o in d.table && d.table[o].obj == x && o !in seen && Collected(d, x, excluded, seen, recalls)
    ensures Collected(d, x, excluded, seen + {o},
                      if o in Selected(d, x, excluded) then recalls + [ItemFor(d, o)] else recalls)
  {
    SelectedMore(d, x, excluded, seen, o);
    assert (recalls + [ItemFor(d, o)])[..|recalls|] == recalls;
  }

  lemma SelectedMore(d: DelegState, x: ServerObject, excluded: Option<ClientId>, seen: set<Other>, o: Other)
    requires o in d.table && d.table[o].obj == x
    ensures Selected(d, x, excluded) * (seen + {o})
         == if o in Selected(d, x, excluded) then Selected(d, x, excluded) * seen + {o} else Selected(d, x, excluded) * seen
  {
  }

  /** Stateids that a recall handed out. */
  ghost predicate Recalled(ids: seq<Stateid>, next: nat) {
    forall s | s in ids :: s.other.counter < next && s.seqid == 1
  }

  function StateidsOf(recalls: seq<RecallItem>): (ids: seq<Stateid>)
    ensures |ids| == |recalls| && forall i | 0 <= i < |ids| :: ids[i] == recalls[i].stateid
  {
    if recalls == [] then [] else StateidsOf(recalls[..|recalls| - 1]) + [recalls[|recalls| - 1].stateid]
  }

  lemma {:induction false} ListedIds(recalls: seq<RecallItem>, o: Other)
    requires o in Listed(recalls)
    ensures exists s | s in StateidsOf(recalls) :: s.other == o
  {
    var n := |recalls| - 1;
    if o == recalls[n].stateid.other {
      assert StateidsOf(recalls)[n] in StateidsOf(recalls);
    } else {
      ListedIds(recalls[..n], o);
      var s :| s in StateidsOf(recalls[..n]) && s.other == o;
      assert s in StateidsOf(recalls);
    }
  }

  lemma ItemsRecalled(d: DelegState, recalls: seq<RecallItem>)
    requires KeysIssued(d) && forall r | r in recalls :: ItemOf(d, r)
    ensures Recalled(StateidsOf(recalls), d.next)
  {
    forall s | s in StateidsOf(recalls)
      ensures s.other.counter < d.next && s.seqid == 1
    {
      var i :| 0 <= i < |recalls| && StateidsOf(recalls)[i] == s;
      assert recalls[i] in recalls;
    }
  }

  lemma {:induction false} RunNext(d: DelegState, limits: Limits, actions: seq<Action>)
    ensures Run(d, limits, actions).next >= d.next
    decreases |actions|
  {
    if actions != [] {
      RunNext(Step(d, limits, actions[0]), limits, actions[1..]);
    }
  }
}
