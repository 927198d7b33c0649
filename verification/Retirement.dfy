/**
  Retiring part of the export while the server runs: the fence on registration, the marks, and
  the sweep, interleaved with registrations, other retirements and every operation of the server.
 */
module Retirement {
  import opened NfsTypes
  import S = ServerRuns
  import FR = FileRuns
  import D = Delegations
  import F = Files
  import St = Stateids

  /** Backend handles are only compared for equality and tested by a retirement's predicate. */
  type Handle = nat

  /** One retirement: its objects, those not yet marked, and whether the sweep is done. */
  datatype Retiring = Retiring(ids: set<ObjectId>, unmarked: set<ObjectId>, swept: bool)

  /** `named` is the history of registrations; no step reads it. Retirement k installed fences[k]. */
  datatype World = World(
    handles: map<Handle, ObjectId>,
    objects: map<ObjectId, Handle>,
    next: ObjectId,
    fences: seq<Handle -> bool>,
    retirements: seq<Retiring>,
    named: map<ObjectId, Handle>,
    server: S.Server)

  ghost predicate Fenced(w: World, h: Handle) {
    exists i | 0 <= i < |w.fences| :: w.fences[i](h)
  }

  /** A known handle keeps its object id; a fenced one is refused; any other gets a fresh id. */
  ghost function Register(w: World, h: Handle): (Result<ObjectId>, World) {
    if h in w.handles then (Success(w.handles[h]), w)
    else if Fenced(w, h) then (Failure(Status.Stale), w)
    else (Success(w.next), w.(handles := w.handles[h := w.next], objects := w.objects[w.next := h],
                              named := w.named[w.next := h], next := w.next + 1))
  }

  /** What a request finds when it turns an object id into a backend handle. */
  function ResolveBackend(w: World, id: ObjectId): Option<Handle> {
    if id in w.objects then Some(w.objects[id]) else None
  }

  ghost function Matched(w: World, fence: Handle -> bool): set<ObjectId> {
    set h | h in w.handles && fence(h) :: w.handles[h]
  }

  /** Fence, snapshot and unmap, in one step; a retirement that matches nothing is over at once. */
  ghost function Retire(w: World, fence: Handle -> bool): World {
    var ids := Matched(w, fence);
    w.(fences := w.fences + [fence],
       handles := map h | h in w.handles && !fence(h) :: w.handles[h],
       objects := map id | id in w.objects && id !in ids :: w.objects[id],
       retirements := w.retirements + [Retiring(ids, ids, ids == {})])
  }

  /** A handle that is known keeps its object; one that is not gets a new object exactly if no fence matches it; nothing else changes. */
  lemma RegisterAnswers(w: World, h: Handle, g: Handle)
    requires MapsOk(w)
    ensures var (r, w') := Register(w, h);
            && (h in w.handles ==> r == Success(w.handles[h]) && w' == w)
            && (r.Failure? <==> h !in w.handles && exists i | 0 <= i < |w.fences| :: w.fences[i](h))
            && (r.Failure? ==> r.status == Status.Stale && w' == w)
            && (h !in w.handles && r.Success? ==> r.value !in w.objects && ResolveBackend(w', r.value) == Some(h))
            && (r.Success? ==> h in w'.handles && w'.handles[h] == r.value && Register(w', h) == (r, w'))
            && (g != h ==> (g in w'.handles <==> g in w.handles) && (g in w.handles ==> w'.handles[g] == w.handles[g]))
  {
  }

  /** A retirement unmaps exactly the handles it matches, and its objects are exactly those. */
  lemma RetireExactly(w: World, fence: Handle -> bool, h: Handle, id: ObjectId)
    requires MapsOk(w)
    ensures var w' := Retire(w, fence);
            && (h in w'.handles <==> h in w.handles && !fence(h)) && (h in w'.handles ==> w'.handles[h] == w.handles[h])
            && ResolveBackend(w', id) == (if id in w.objects && fence(w.objects[id]) then None else ResolveBackend(w, id))
            && w'.retirements == w.retirements + [w'.retirements[|w.retirements|]]
            && (id in w'.retirements[|w.retirements|].ids <==> id in w.objects && fence(w.objects[id]))
            && w'.retirements[|w.retirements|].unmarked == w'.retirements[|w.retirements|].ids
            && (w'.retirements[|w.retirements|].swept <==> forall g | g in w.handles :: !fence(g))
            && w'.server == w.server && w'.next == w.next && w'.named == w.named && w'.fences == w.fences + [fence]
  {
    assert id in Matched(w, fence) <==> id in w.objects && fence(w.objects[id]);
    assert forall g | g in w.handles && fence(g) :: w.handles[g] in Matched(w, fence);
  }

  datatype Action =
    | Registering(h: Handle)
    | Fencing(fence: Handle -> bool)
    | Marking(k: nat, id: ObjectId)          // retirement k marks one of its objects
    | Sweeping(k: nat)                       // retirement k, all marked, drops their state
    | Serving(a: S.Action)                   // anything else the server does, recalls included

  predicate Allowed(w: World, a: Action) {
    match a
    case Marking(k, id) => k < |w.retirements| && id in w.retirements[k].unmarked
    case Sweeping(k) => k < |w.retirements| && w.retirements[k].unmarked == {}
    case Serving(op) => op.Proper() && !op.Mark? && !op.Sweep?
    case _ => true
  }

  ghost function Step(w: World, config: S.Config, a: Action): World
    requires Allowed(w, a)
  {
    match a
    case Registering(h) => Register(w, h).1
    case Fencing(fence) => Retire(w, fence)
    case Marking(k, id) =>
      var r := w.retirements[k];
      w.(retirements := w.retirements[k := r.(unmarked := r.unmarked - {id})], server := S.Step(w.server, config, S.Mark(id)))
    case Sweeping(k) =>
      var r := w.retirements[k];
      w.(retirements := w.retirements[k := r.(swept := true)], server := S.Step(w.server, config, S.Sweep(r.ids)))
    case Serving(op) => w.(server := S.Step(w.server, config, op))
  }

  ghost predicate Runs(w: World, config: S.Config, actions: seq<Action>)
    decreases |actions|
  {
    actions == [] || (Allowed(w, actions[0]) && Runs(Step(w, config, actions[0]), config, actions[1..]))
  }

  ghost function Run(w: World, config: S.Config, actions: seq<Action>): World
    requires Runs(w, config, actions)
    decreases |actions|
  {
    if actions == [] then w else Run(Step(w, config, actions[0]), config, actions[1..])
  }

  const START: World := World(map[], map[], 1, [], [], map[], S.START)

  // ---- The invariant ----

  /** The two maps are inverse, agree with the history, and no registered handle is fenced. */
  ghost predicate MapsOk(w: World) {
    && (forall h | h in w.handles :: w.handles[h] in w.objects && w.objects[w.handles[h]] == h && !Fenced(w, h))
    && (forall id | id in w.objects :: w.objects[id] in w.handles && w.handles[w.objects[id]] == id)
    && (forall id | id in w.objects :: id in w.named && w.named[id] == w.objects[id])
    && (forall id | id in w.named :: id < w.next)
  }

  ghost predicate RetirementOk(w: World, k: nat)
    requires k < |w.retirements|
  {
    var r := w.retirements[k];
    && r.unmarked <= r.ids
    && (forall id | id in r.ids :: id in w.named && id !in w.objects)
    && r.ids - r.unmarked <= w.server.files.retired
    && (r.swept ==> r.unmarked == {} && S.ClearOf(w.server, r.ids))
  }

  /** An object once registered and no longer mapped belongs to a retirement. */
  ghost predicate Accounted(w: World) {
    forall id | id in w.named && id !in w.objects :: exists k | 0 <= k < |w.retirements| :: id in w.retirements[k].ids
  }

  ghost predicate Inv(w: World, config: S.Config) {
    && |w.fences| == |w.retirements| && MapsOk(w) && Accounted(w)
    && (forall k: nat | k < |w.retirements| :: RetirementOk(w, k))
    && S.Inv(w.server, config)
  }

  lemma RegisterKeeps(w: World, config: S.Config, h: Handle)
    requires Inv(w, config)
    ensures Inv(Register(w, h).1, config)
  {
    var w' := Register(w, h).1;
    assert w'.retirements == w.retirements && w'.server == w.server;
    forall k: nat | k < |w'.retirements|
      ensures RetirementOk(w', k)
    {
      assert RetirementOk(w, k);
    }
  }

  lemma RetireMaps(w: World, fence: Handle -> bool)
    requires MapsOk(w)
    ensures MapsOk(Retire(w, fence))
    ensures forall id | id in Matched(w, fence) :: id in w.objects && fence(w.objects[id])
  {
    var w' := Retire(w, fence);
    forall h | h in w'.handles
      ensures w'.handles[h] in w'.objects && !Fenced(w', h)
    {
      assert h in w.handles && !fence(h);
      assert forall i | 0 <= i < |w.fences| :: w'.fences[i] == w.fences[i];
    }
  }

  lemma RetireKeeps(w: World, config: S.Config, fence: Handle -> bool)
    requires Inv(w, config)
    ensures Inv(Retire(w, fence), config)
  {
    var w' := Retire(w, fence);
    RetireMaps(w, fence);
    forall k: nat | k < |w'.retirements|
      ensures RetirementOk(w', k)
    {
      if k < |w.retirements| {
        assert RetirementOk(w, k);
      }
    }
    forall id | id in w'.named && id !in w'.objects
      ensures exists k | 0 <= k < |w'.retirements| :: id in w'.retirements[k].ids
    {
      if id in w.objects {
        assert id in w'.retirements[|w.retirements|].ids;
      } else {
        var k :| 0 <= k < |w.retirements| && id in w.retirements[k].ids;
        assert id in w'.retirements[k].ids;
      }
    }
  }

  /** What a step of the server alone leaves true of every retirement. */
  lemma ServerKeeps(w: World, config: S.Config, op: S.Action, r: Retiring)
    requires Inv(w, config) && op.Proper()
    requires r.ids - r.unmarked <= w.server.files.retired && (r.swept ==> r.unmarked == {} && S.ClearOf(w.server, r.ids))
    ensures var s' := S.Step(w.server, config, op);
            && r.ids - r.unmarked <= s'.files.retired && (r.swept ==> S.ClearOf(s', r.ids))
            && S.Inv(s', config)
  {
    S.StepKeepsInv(w.server, config, op);
    S.StepKeepsMarks(w.server, config, op);
    if r.swept {
      S.StepStaysClear(w.server, config, op, r.ids);
    }
  }

  lemma StepKeepsInv(w: World, config: S.Config, a: Action)
    requires Inv(w, config) && Allowed(w, a)
    ensures Inv(Step(w, config, a), config)
  {
    if a.Registering? {
      RegisterKeeps(w, config, a.h);
    } else if a.Fencing? {
      RetireKeeps(w, config, a.fence);
    } else if a.Serving? {
      ServingKeeps(w, config, a.a);
    } else if a.Marking? {
      MarkingKeeps(w, config, a.k, a.id);
    } else {
      SweepingKeeps(w, config, a.k);
    }
  }

  lemma ServingKeeps(w: World, config: S.Config, op: S.Action)
    requires Inv(w, config) && op.Proper()
    ensures Inv(w.(server := S.Step(w.server, config, op)), config)
  {
    var w' := w.(server := S.Step(w.server, config, op));
    S.StepKeepsInv(w.server, config, op);
    forall k: nat | k < |w'.retirements|
      ensures RetirementOk(w', k)
    {
      assert RetirementOk(w, k);
      ServerKeeps(w, config, op, w.retirements[k]);
    }
  }

  /** Changing one retirement, in step with the server, is accounted for as before. */
  lemma PutKeeps(w: World, config: S.Config, k: nat, r: Retiring)
    requires Inv(w, config) && k < |w.retirements| && r.ids == w.retirements[k].ids
    requires RetirementOk(w.(retirements := w.retirements[k := r]), k)
    ensures Inv(w.(retirements := w.retirements[k := r]), config)
  {
    var w' := w.(retirements := w.retirements[k := r]);
    forall j: nat | j < |w'.retirements|
      ensures RetirementOk(w', j)
    {
      assert RetirementOk(w, j);
    }
    forall id | id in w'.named && id !in w'.objects
      ensures exists j | 0 <= j < |w'.retirements| :: id in w'.retirements[j].ids
    {
      var j :| 0 <= j < |w.retirements| && id in w.retirements[j].ids;
      assert w'.retirements[j].ids == w.retirements[j].ids;
    }
  }

  lemma MarkingKeeps(w: World, config: S.Config, k: nat, id: ObjectId)
    requires Inv(w, config) && Allowed(w, Marking(k, id))
    ensures Inv(Step(w, config, Marking(k, id)), config)
  {
    var s := S.Step(w.server, config, S.Mark(id));
    var r := w.retirements[k].(unmarked := w.retirements[k].unmarked - {id});
    var mid := w.(server := s);
    assert Step(w, config, Marking(k, id)) == mid.(retirements := mid.retirements[k := r]);
    S.MarkAdds(w.server, config, id);
    ServingKeeps(w, config, S.Mark(id));
    MarkedOk(mid, k, id);
    PutKeeps(mid, config, k, r);
  }

  lemma MarkedOk(w: World, k: nat, id: ObjectId)
    requires k < |w.retirements| && RetirementOk(w, k) && id in w.server.files.retired
    ensures var r := w.retirements[k];
            RetirementOk(w.(retirements := w.retirements[k := r.(unmarked := r.unmarked - {id})]), k)
  {
  }

  lemma SweepingKeeps(w: World, config: S.Config, k: nat)
    requires Inv(w, config) && Allowed(w, Sweeping(k))
    ensures Inv(Step(w, config, Sweeping(k)), config)
  {
    var ids := w.retirements[k].ids;
    ServingKeeps(w, config, S.Sweep(ids));
    var mid := w.(server := S.Step(w.server, config, S.Sweep(ids)));
    var r := w.retirements[k].(swept := true);
    assert Step(w, config, Sweeping(k)) == mid.(retirements := mid.retirements[k := r]);
    assert RetirementOk(mid, k);
    S.SweepClears(w.server, config, ids);
    PutKeeps(mid, config, k, r);
  }

  lemma {:induction false} RunKeepsInv(w: World, config: S.Config, actions: seq<Action>)
    requires Inv(w, config) && Runs(w, config, actions)
    ensures Inv(Run(w, config, actions), config)
    decreases |actions|
  {
    if actions != [] {
      StepKeepsInv(w, config, actions[0]);
      RunKeepsInv(Step(w, config, actions[0]), config, actions[1..]);
    }
  }

  // ---- Retirement is permanent ----

  lemma StepKeepsHistory(w: World, config: S.Config, a: Action, k: nat)
    requires Allowed(w, a) && k < |w.retirements| && |w.fences| == |w.retirements|
    ensures var w' := Step(w, config, a);
            && k < |w'.retirements| && |w'.fences| == |w'.retirements| && w'.fences[k] == w.fences[k]
            && w'.retirements[k].ids == w.retirements[k].ids && (w.retirements[k].swept ==> w'.retirements[k].swept)
  {
  }

  /**
    From the moment a retirement is fenced, in every later run: no handle it matches is registered
    or can be; its objects resolve to no handle; and once it is swept no open, lock or delegation
    is on them.
   */
  lemma {:induction false} RetiredForGood(w: World, config: S.Config, actions: seq<Action>, k: nat)
    requires Inv(w, config) && Runs(w, config, actions) && k < |w.retirements|
    ensures var w' := Run(w, config, actions);
            && k < |w'.fences| && w'.fences[k] == w.fences[k]
            && (forall h | w.fences[k](h) :: h !in w'.handles && Register(w', h).0 == Failure(Status.Stale))
            && (forall id | id in w.retirements[k].ids :: ResolveBackend(w', id) == None)
            && (w.retirements[k].swept ==> S.ClearOf(w'.server, w.retirements[k].ids))
    decreases |actions|
  {
    if actions == [] {
      assert RetirementOk(w, k);
      forall h | w.fences[k](h)
        ensures h !in w.handles && Register(w, h).0 == Failure(Status.Stale)
      {
        assert Fenced(w, h);
      }
    } else {
      StepKeepsInv(w, config, actions[0]);
      StepKeepsHistory(w, config, actions[0], k);
      RetiredForGood(Step(w, config, actions[0]), config, actions[1..], k);
    }
  }

  // ---- When a retirement is over, is everything it matches gone? ----

  /** No state is left on any object that was ever registered under a handle of the predicate. */
  ghost predicate AllGone(w: World, fence: Handle -> bool) {
    forall id | id in w.named && fence(w.named[id]) :: S.ClearOf(w.server, {id})
  }

  /** An object that belongs to a retirement which has not swept yet. */
  ghost predicate Pending(w: World, id: ObjectId) {
    exists k | 0 <= k < |w.retirements| :: !w.retirements[k].swept && id in w.retirements[k].ids
  }

  ghost predicate Over(w: World, k: nat) {
    k < |w.retirements| && w.retirements[k].swept
  }

  /** Whatever happens after its fence, when the retirement is over everything it matches is gone. */
  ghost predicate AlwaysGone(w: World, config: S.Config, fence: Handle -> bool) {
    var fenced := Retire(w, fence);
    forall actions | Runs(fenced, config, actions) && Over(Run(fenced, config, actions), |w.retirements|) ::
      AllGone(Run(fenced, config, actions), fence)
  }

  /** Nothing is on the object, and nothing can get there: it is marked. */
  ghost predicate Done(w: World, id: ObjectId) {
    id in w.server.files.retired && S.ClearOf(w.server, {id})
  }

  /** What can be checked before retiring: no matching object of a retirement under way has, or can get, state. */
  ghost predicate PendingAreDone(w: World, fence: Handle -> bool) {
    forall id | id in w.named && fence(w.named[id]) && Pending(w, id) :: Done(w, id)
  }

  // -- If so, everything goes --

  /** The objects that match are marked and bare, or are the retirement's own. */
  ghost predicate Settled(w: World, config: S.Config, k: nat, bare: set<ObjectId>) {
    && Inv(w, config) && k < |w.retirements|
    && bare <= w.server.files.retired && S.ClearOf(w.server, bare)
    && forall id | id in w.named && w.fences[k](w.named[id]) :: id in bare || id in w.retirements[k].ids
  }

  lemma MatchedIsDone(w: World, config: S.Config, fence: Handle -> bool, id: ObjectId)
    requires Inv(w, config) && PendingAreDone(w, fence) && id in w.named && fence(w.named[id])
    ensures id in Matched(w, fence) || Done(w, id)
  {
    if id in w.objects {
      assert w.handles[w.objects[id]] == id;
    } else {
      var j :| 0 <= j < |w.retirements| && id in w.retirements[j].ids;
      assert RetirementOk(w, j);
      if !w.retirements[j].swept {
        assert Pending(w, id);
      }
    }
  }

  lemma FencedIsSettled(w: World, config: S.Config, fence: Handle -> bool) returns (bare: set<ObjectId>)
    requires Inv(w, config) && PendingAreDone(w, fence)
    ensures Settled(Retire(w, fence), config, |w.retirements|, bare)
  {
    RetireKeeps(w, config, fence);
    bare := set id | id in w.named && Done(w, id);
    forall id | id in w.named && fence(w.named[id])
      ensures id in bare || id in Matched(w, fence)
    {
      MatchedIsDone(w, config, fence, id);
    }
    BareIsClear(w, bare);
  }

  lemma BareIsClear(w: World, bare: set<ObjectId>)
    requires forall id | id in bare :: Done(w, id)
    ensures bare <= w.server.files.retired && S.ClearOf(w.server, bare)
  {
    forall id | id in bare
      ensures S.ClearOf(w.server, {id})
    {
      assert Done(w, id);
    }
    assert forall o | o in w.server.files.opens :: w.server.files.opens[o].obj.Base() in bare ==>
        !S.ClearOf(w.server, {w.server.files.opens[o].obj.Base()});
    assert forall o | o in w.server.files.locks :: w.server.files.locks[o].obj.Base() in bare ==>
        !S.ClearOf(w.server, {w.server.files.locks[o].obj.Base()});
    assert forall o | o in w.server.delegs.table :: w.server.delegs.table[o].obj.Base() in bare ==>
        !S.ClearOf(w.server, {w.server.delegs.table[o].obj.Base()});
  }

  lemma StepKeepsBare(w: World, config: S.Config, a: Action, bare: set<ObjectId>)
    requires Inv(w, config) && Allowed(w, a) && bare <= w.server.files.retired && S.ClearOf(w.server, bare)
    ensures bare <= Step(w, config, a).server.files.retired && S.ClearOf(Step(w, config, a).server, bare)
  {
    if a.Serving? {
      S.StepStaysClear(w.server, config, a.a, bare);
    } else if a.Marking? {
      S.StepStaysClear(w.server, config, S.Mark(a.id), bare);
    } else if a.Sweeping? {
      S.StepStaysClear(w.server, config, S.Sweep(w.retirements[a.k].ids), bare);
    }
  }

  lemma StepNames(w: World, config: S.Config, a: Action, k: nat, id: ObjectId)
    requires Inv(w, config) && Allowed(w, a) && k < |w.retirements|
    requires var w' := Step(w, config, a); id in w'.named && w.fences[k](w'.named[id])
    ensures id in w.named && w.named[id] == Step(w, config, a).named[id]
  {
    if a.Registering? && !(a.h in w.handles) && w.fences[k](a.h) {
      assert Fenced(w, a.h);
    }
  }

  lemma StepKeepsSettled(w: World, config: S.Config, a: Action, k: nat, bare: set<ObjectId>)
    requires Settled(w, config, k, bare) && Allowed(w, a)
    ensures Settled(Step(w, config, a), config, k, bare)
  {
    var w' := Step(w, config, a);
    StepKeepsInv(w, config, a);
    StepKeepsHistory(w, config, a, k);
    StepKeepsBare(w, config, a, bare);
    forall id | id in w'.named && w'.fences[k](w'.named[id])
      ensures id in bare || id in w'.retirements[k].ids
    {
      StepNames(w, config, a, k, id);
    }
  }

  lemma {:induction false} RunKeepsSettled(w: World, config: S.Config, actions: seq<Action>, k: nat, bare: set<ObjectId>)
    requires Settled(w, config, k, bare) && Runs(w, config, actions)
    ensures Settled(Run(w, config, actions), config, k, bare) && Run(w, config, actions).fences[k] == w.fences[k]
    decreases |actions|
  {
    if actions != [] {
      StepKeepsSettled(w, config, actions[0], k, bare);
      StepKeepsHistory(w, config, actions[0], k);
      RunKeepsSettled(Step(w, config, actions[0]), config, actions[1..], k, bare);
    }
  }

  lemma SettledAndOverIsGone(w: World, config: S.Config, k: nat, bare: set<ObjectId>)
    requires Settled(w, config, k, bare) && w.retirements[k].swept
    ensures AllGone(w, w.fences[k])
  {
    assert RetirementOk(w, k);
  }

  // -- If not, there is a run that leaves something --

  lemma OpeningLeavesState(s: S.Server, config: S.Config, id: ObjectId)
    requires id !in s.files.retired && S.ClearOf(s, {id})
    ensures !S.ClearOf(S.Step(s, config, S.FileOp(FR.OpenFile(Fs(id), F.StateOwner(0, []), 3, 0))), {id})
  {
    var owner := F.StateOwner(0, []);
    assert !F.HasOwnOpen(s.files, Fs(id), owner);
    assert F.OwnOpen(s.files, Fs(id), owner) == None;
    var (res, f) := F.CreateOpen(s.files, Fs(id), owner, 3, 0);
    assert res == Success(St.Stateid(1, St.Other(s.files.next, 0)));
    assert f.opens[St.Other(s.files.next, 0)].obj.Base() == id;
  }

  lemma {:induction false} MarkAll(w: World, config: S.Config, k: nat, id: ObjectId) returns (actions: seq<Action>)
    requires k < |w.retirements| && !S.ClearOf(w.server, {id})
    ensures Runs(w, config, actions)
    ensures var w' := Run(w, config, actions);
            && k < |w'.retirements| && w'.retirements[k].unmarked == {} && w'.retirements[k].ids == w.retirements[k].ids
            && !S.ClearOf(w'.server, {id}) && w'.named == w.named
    decreases w.retirements[k].unmarked
  {
    if w.retirements[k].unmarked == {} {
      actions := [];
    } else {
      var x :| x in w.retirements[k].unmarked;
      var next := Step(w, config, Marking(k, x));
      MarkLeavesState(w.server, config, x, id);
      var rest := MarkAll(next, config, k, id);
      actions := [Marking(k, x)] + rest;
      assert actions[1..] == rest;
    }
  }

  lemma MarkLeavesState(s: S.Server, config: S.Config, x: ObjectId, id: ObjectId)
    ensures S.ClearOf(S.Step(s, config, S.Mark(x)), {id}) == S.ClearOf(s, {id})
  {
  }

  lemma SweepLeavesState(s: S.Server, config: S.Config, ids: set<ObjectId>, id: ObjectId)
    requires id !in ids && !S.ClearOf(s, {id})
    ensures !S.ClearOf(S.Step(s, config, S.Sweep(ids)), {id})
  {
    var s' := S.Step(s, config, S.Sweep(ids));
    assert s'.files == FR.Invalidate(s.files, ids) && s'.delegs == D.Invalidate(s.delegs, ids);
    if o :| o in s.files.opens && s.files.opens[o].obj.Base() == id {
      assert o in s'.files.opens;
    } else if o :| o in s.files.locks && s.files.locks[o].obj.Base() == id {
      assert o in s'.files.locks;
    } else {
      var o :| o in s.delegs.table && s.delegs.table[o].obj.Base() == id;
      assert o in s'.delegs.table;
    }
  }

  /** From a world in which the object has state: mark and sweep retirement k, and the state is still there. */
  lemma OverWithState(w: World, config: S.Config, k: nat, id: ObjectId) returns (actions: seq<Action>)
    requires k < |w.retirements| && id !in w.retirements[k].ids && !S.ClearOf(w.server, {id})
    ensures Runs(w, config, actions) && Over(Run(w, config, actions), k)
    ensures !S.ClearOf(Run(w, config, actions).server, {id}) && Run(w, config, actions).named == w.named
  {
    var marks := MarkAll(w, config, k, id);
    var w' := Run(w, config, marks);
    SweepLeavesState(w'.server, config, w'.retirements[k].ids, id);
    actions := marks + [Sweeping(k)];
    RunThen(w, config, marks, Sweeping(k));
  }

  lemma {:induction false} RunThen(w: World, config: S.Config, actions: seq<Action>, a: Action)
    requires Runs(w, config, actions) && Allowed(Run(w, config, actions), a)
    ensures Runs(w, config, actions + [a])
    ensures Run(w, config, actions + [a]) == Step(Run(w, config, actions), config, a)
    decreases |actions|
  {
    if actions == [] {
      assert ([] + [a])[1..] == [];
    } else {
      RunThen(Step(w, config, actions[0]), config, actions[1..], a);
      assert (actions + [a])[1..] == actions[1..] + [a];
    }
  }

  /** A matching object that is not done, in a retirement under way, can outlive the retirement. */
  lemma PendingOutlives(w: World, config: S.Config, fence: Handle -> bool, id: ObjectId) returns (actions: seq<Action>)
    requires Inv(w, config) && id in w.named && fence(w.named[id]) && Pending(w, id) && !Done(w, id)
    ensures var fenced := Retire(w, fence);
            && Runs(fenced, config, actions) && Over(Run(fenced, config, actions), |w.retirements|)
            && !AllGone(Run(fenced, config, actions), fence)
  {
    var fenced, k := Retire(w, fence), |w.retirements|;
    var j :| 0 <= j < |w.retirements| && !w.retirements[j].swept && id in w.retirements[j].ids;
    assert RetirementOk(w, j);
    RetireMaps(w, fence);
    assert id !in fenced.retirements[k].ids;
    if S.ClearOf(w.server, {id}) {
      var opening := Serving(S.FileOp(FR.OpenFile(Fs(id), F.StateOwner(0, []), 3, 0)));
      OpeningLeavesState(w.server, config, id);
      var rest := OverWithState(Step(fenced, config, opening), config, k, id);
      actions := [opening] + rest;
      assert actions[1..] == rest;
    } else {
      actions := OverWithState(fenced, config, k, id);
    }
  }

  /**
    Whatever happens later, when a retirement is over everything it matches is gone, if and only if
    at the call every matching object of a retirement still under way is already marked and bare.
   */
  lemma GoneUnlessPending(w: World, config: S.Config, fence: Handle -> bool)
    requires Inv(w, config)
    ensures AlwaysGone(w, config, fence) <==> PendingAreDone(w, fence)
  {
    var fenced := Retire(w, fence);
    if PendingAreDone(w, fence) {
      var bare := FencedIsSettled(w, config, fence);
      forall actions | Runs(fenced, config, actions) && Over(Run(fenced, config, actions), |w.retirements|)
        ensures AllGone(Run(fenced, config, actions), fence)
      {
        RunKeepsSettled(fenced, config, actions, |w.retirements|, bare);
        SettledAndOverIsGone(Run(fenced, config, actions), config, |w.retirements|, bare);
      }
    } else {
      var id :| id in w.named && fence(w.named[id]) && Pending(w, id) && !Done(w, id);
      var actions := PendingOutlives(w, config, fence, id);
    }
  }

  /** With no other retirement under way at the call, everything is gone. */
  lemma AloneLeavesNothing(w: World, config: S.Config, fence: Handle -> bool)
    requires Inv(w, config) && forall j | 0 <= j < |w.retirements| :: w.retirements[j].swept
    ensures AlwaysGone(w, config, fence)
  {
    GoneUnlessPending(w, config, fence);
  }

  /**
    A retirement whose objects an earlier one has already unmapped is over at once, before that
    one has swept: whatever was open stays open.
   */
  lemma SecondRetirementIsOverAtOnce(w: World, fence: Handle -> bool, h: Handle, o: St.Other)
    requires h in w.handles && fence(h) && w.handles[h] in w.named && w.named[w.handles[h]] == h
    requires o in w.server.files.opens && w.server.files.opens[o].obj == Fs(w.handles[h])
    ensures var w' := Retire(Retire(w, fence), fence);
            w'.retirements[|w.retirements| + 1].swept && !AllGone(w', fence)
  {
    var once := Retire(w, fence);
    assert Matched(once, fence) == {};
    var w' := Retire(once, fence);
    var id := w.handles[h];
    assert id in w'.named && fence(w'.named[id]) && !S.ClearOf(w'.server, {id});
  }

  lemma OpenedAt(config: S.Config)
    ensures var s := S.Step(S.START, config, S.FileOp(FR.OpenFile(Fs(1), F.StateOwner(1, []), 3, 0)));
            St.Other(1, 1) in s.files.opens && s.files.opens[St.Other(1, 1)].obj == Fs(1)
  {
    assert F.CreateOpen(FR.EMPTY, Fs(1), F.StateOwner(1, []), 3, 0).0 == Success(St.Stateid(1, St.Other(1, 1)));
  }

  /** Such a run from the start: register a handle, open its object, retire everything twice. */
  lemma OverlappingRetirementLeavesState(config: S.Config)
    ensures var w2 := Step(Step(START, config, Registering(7)), config, Serving(OPENING));
            var w4 := Step(Step(w2, config, Fencing(EVERYTHING)), config, Fencing(EVERYTHING));
            w4.retirements[1].swept && !AllGone(w4, EVERYTHING)
  {
    var w1 := START.(handles := map[7 := 1], objects := map[1 := 7], named := map[1 := 7], next := 2);
    assert Step(START, config, Registering(7)) == w1;
    OpenedAt(config);
    var w2 := w1.(server := S.Step(S.START, config, OPENING));
    SecondRetirementIsOverAtOnce(w2, EVERYTHING, 7, St.Other(1, 1));
  }

  const OPENING: S.Action := S.FileOp(FR.OpenFile(Fs(1), F.StateOwner(1, []), 3, 0))
  const EVERYTHING: Handle -> bool := h => true

  // ---- Registration as the server keeps it ----

  class HandleTable {
    var handles: map<Handle, ObjectId>
    var objects: map<ObjectId, Handle>
    var next: ObjectId
    var fences: seq<Handle -> bool>

    /** The registration part of a world. */
    ghost function View(): World
      reads this
    {
      World(handles, objects, next, fences, [], map[], S.START)
    }

    ghost predicate Valid()
      reads this
    {
      && (forall h | h in handles :: handles[h] in objects && objects[handles[h]] == h && !Fenced(View(), h))
      && (forall id | id in objects :: id < next && objects[id] in handles && handles[objects[id]] == id)
    }

    constructor ()
      ensures Valid() && handles == map[] && objects == map[] && fences == []
    {
      handles, objects, next, fences := map[], map[], 1, [];
    }

    /** Whether any fence matches, in the order they were installed. */
    method IsRetired(h: Handle) returns (r: bool)
      ensures r == Fenced(View(), h)
    {
      for i := 0 to |fences|
        invariant forall j | 0 <= j < i :: !fences[j](h)
      {
        if fences[i](h) {
          return true;
        }
      }
      return false;
    }

    method RegisterHandle(h: Handle) returns (r: Result<ObjectId>)
      requires Valid()
      modifies this
      ensures Valid() && fences == old(fences)
      ensures r == Register(old(View()), h).0
      ensures r.Success? ==> h in handles && handles[h] == r.value && objects[r.value] == h
      ensures handles == Register(old(View()), h).1.handles && objects == Register(old(View()), h).1.objects
    {
      if h in handles {
        return Success(handles[h]);
      }
      var fenced := IsRetired(h);
      if fenced {
        return Failure(Status.Stale);
      }
      var id := next;
      next := next + 1;
      handles := handles[h := id];
      objects := objects[id := h];
      return Success(id);
    }

    /** Install the fence, take the snapshot and remove the mappings, under the lock registration takes. */
    method FenceAndUnmap(fence: Handle -> bool) returns (ids: set<ObjectId>)
      requires Valid()
      modifies this
      ensures Valid() && fences == old(fences) + [fence]
      ensures ids == Matched(old(View()), fence)
      ensures handles == Retire(old(View()), fence).handles && objects == Retire(old(View()), fence).objects
      ensures forall h | fence(h) :: h !in handles
    {
      ghost var w := View();
      fences := fences + [fence];
      var matched := set h | h in handles && fence(h);
      ids := UnmapEach(matched);
      UnmapKeeps(w, fence, matched, ids);
    }

    method UnmapEach(matched: set<Handle>) returns (ids: set<ObjectId>)
      requires matched <= handles.Keys
      modifies this`handles, this`objects
      ensures ids == set h | h in matched :: old(handles)[h]
      ensures handles == old(handles) - matched && objects == old(objects) - ids
    {
      ghost var was, objs := handles, objects;
      ids := {};
      var left := matched;
      while left != {}
        invariant left <= matched && handles == was - (matched - left)
        invariant ids == set h | h in matched - left :: was[h]
        invariant objects == objs - ids
        decreases left
      {
        var h :| h in left;
        left := left - {h};
        ids := ids + {handles[h]};
        objects := objects - {handles[h]};
        handles := handles - {h};
        assert matched - left == (matched - (left + {h})) + {h};
      }
    }
  }

  /** What the loop leaves is what the single step of the protocol leaves. */
  lemma UnmapKeeps(w: World, fence: Handle -> bool, matched: set<Handle>, ids: set<ObjectId>)
    requires forall h | h in w.handles :: w.handles[h] in w.objects && w.objects[w.handles[h]] == h && !Fenced(w, h)
    requires forall id | id in w.objects :: id < w.next && w.objects[id] in w.handles && w.handles[w.objects[id]] == id
    requires matched == (set h | h in w.handles && fence(h)) && ids == set h | h in matched :: w.handles[h]
    ensures ids == Matched(w, fence)
    ensures var w' := Retire(w, fence);
            && w.handles - matched == w'.handles && w.objects - ids == w'.objects
            && (forall h | h in w'.handles :: w'.handles[h] in w'.objects && w'.objects[w'.handles[h]] == h && !Fenced(w', h))
            && (forall id | id in w'.objects :: w'.objects[id] in w'.handles && w'.handles[w'.objects[id]] == id)
  {
    var w' := Retire(w, fence);
    forall h | h in w'.handles
      ensures w'.handles[h] in w'.objects && !Fenced(w', h)
    {
      assert !fence(h) && forall i | 0 <= i < |w.fences| :: w'.fences[i] == w.fences[i];
    }
  }
}
