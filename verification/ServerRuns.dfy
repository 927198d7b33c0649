/**
  The server's state as a whole: client records and sessions, opens and locks, delegations. One
  stateid counter and one set of retired objects serve them all.
 */
module ServerRuns {
  import opened NfsTypes
  import opened Stateids
  import opened LockRanges
  import C = Clients
  import F = Files
  import FR = FileRuns
  import D = Delegations

  datatype Server = Server(registry: C.Registry, files: F.FileState, delegs: D.DelegState)

  datatype Config = Config(leases: C.Config, limits: D.Limits)

  const START: Server := Server(C.START, FR.EMPTY, D.EMPTY)

  // ---- Losing clients ----

  function RevokeAll(f: F.FileState, lost: set<ClientId>): F.FileState {
    f.(opens := map k | k in f.opens && f.opens[k].clientid !in lost :: f.opens[k],
       locks := map k | k in f.locks && f.locks[k].owner.clientid !in lost :: f.locks[k])
  }

  function DelegsOf(d: D.DelegState, lost: set<ClientId>): set<Other> {
    set o | o in d.table && d.table[o].clientid in lost
  }

  function PurgeAll(d: D.DelegState, lost: set<ClientId>): D.DelegState {
    D.DropAll(d, DelegsOf(d, lost))
  }

  /** The client has an open, a lock or a live delegation. */
  ghost predicate HoldsState(s: Server, c: ClientId) {
    || (exists k | k in s.files.opens :: s.files.opens[k].clientid == c)
    || (exists k | k in s.files.locks :: s.files.locks[k].owner.clientid == c)
    || D.LiveOfClient(s.delegs, c) != {}
  }

  /** Nothing of the client is left: no open, no lock, no delegation of any status. */
  ghost predicate Bare(s: Server, c: ClientId) {
    NoFiles(s.files, c) && NoDelegs(s.delegs, c)
  }

  ghost predicate NoFiles(f: F.FileState, c: ClientId) {
    (forall k | k in f.opens :: f.opens[k].clientid != c) && (forall k | k in f.locks :: f.locks[k].owner.clientid != c)
  }

  ghost predicate NoDelegs(d: D.DelegState, c: ClientId) {
    forall o | o in d.table :: d.table[o].clientid != c
  }

  function Lose(s: Server, lost: set<ClientId>): Server {
    s.(files := RevokeAll(s.files, lost), delegs := PurgeAll(s.delegs, lost))
  }

  // ---- Steps and runs ----

  datatype Action =
    | ClientOp(now: int, client: C.Action)
    | FileOp(file: FR.Action)
    | DelegOp(deleg: D.Action)
    | Mark(id: ObjectId)
    | Sweep(ids: set<ObjectId>)
  {
    /** Losing a client, marking and sweeping are steps of the whole server, not of one table. */
    predicate Proper() {
      && (FileOp? ==> !file.LoseClient? && !file.MarkRetired? && !file.Sweep? && !file.IssueElsewhere?)
      && (DelegOp? ==> !deleg.MarkRetired? && !deleg.Sweep? && !deleg.IssueElsewhere?)
    }
  }

  /** DESTROY_CLIENTID looks at the state that is left once expired leases are gone. */
  ghost function Informed(s: Server, config: Config, now: int, a: C.Action): C.Action {
    if a.EndingClient?
    then C.EndingClient(a.c, HoldsState(Lose(s, C.Reap(s.registry, config.leases, now).0), a.c))
    else a
  }

  ghost function ClientStep(s: Server, config: Config, now: int, a: C.Action): Server {
    var (lost, registry) := C.Step(s.registry, config.leases, now, Informed(s, config, now, a));
    Lose(s.(registry := registry), lost)
  }

  ghost function FileStep(s: Server, a: FR.Action): Server {
    var f := FR.Step(s.files, a);
    s.(files := f, delegs := s.delegs.(next := f.next))
  }

  ghost function DelegStep(s: Server, config: Config, a: D.Action): Server {
    var d := D.Step(s.delegs, config.limits, a);
    s.(delegs := d, files := s.files.(next := d.next))
  }

  ghost function Step(s: Server, config: Config, a: Action): Server
    requires a.Proper()
  {
    match a
    case ClientOp(now, client) => ClientStep(s, config, now, client)
    case FileOp(file) => FileStep(s, file)
    case DelegOp(deleg) => DelegStep(s, config, deleg)
    case Mark(id) => s.(files := FR.Step(s.files, FR.MarkRetired(id)),
                        delegs := D.Step(s.delegs, config.limits, D.MarkRetired(id)))
    case Sweep(ids) => s.(files := FR.Step(s.files, FR.Sweep(ids)),
                          delegs := D.Step(s.delegs, config.limits, D.Sweep(ids)))
  }

  ghost predicate AllProper(actions: seq<Action>) {
    forall i | 0 <= i < |actions| :: actions[i].Proper()
  }

  ghost function Run(s: Server, config: Config, actions: seq<Action>): Server
    requires AllProper(actions)
    decreases |actions|
  {
    if actions == [] then s else Run(Step(s, config, actions[0]), config, actions[1..])
  }

  // ---- The invariant ----

  /** No stateid names both a delegation and an open or a lock. */
  ghost predicate Apart(f: F.FileState, d: D.DelegState) {
    forall o | o in d.table :: o !in f.opens && o !in f.locks
  }

  ghost predicate Shared(f: F.FileState, d: D.DelegState) {
    f.next == d.next && f.retired == d.retired
  }

  ghost predicate Inv(s: Server, config: Config) {
    && C.Inv(s.registry) && F.Inv(s.files) && D.Inv(s.delegs, config.limits)
    && Shared(s.files, s.delegs) && Apart(s.files, s.delegs)
  }

  lemma LoseKeeps(s: Server, config: Config, lost: set<ClientId>)
    requires Inv(s, config)
    ensures Inv(Lose(s, lost), config)
  {
    FR.DropKeeps(s.files, RevokeAll(s.files, lost));
    D.DropAllAgrees(s.delegs, DelegsOf(s.delegs, lost));
    D.FadeKeeps(s.delegs, PurgeAll(s.delegs, lost), config.limits);
  }

  lemma ClientStepKeeps(s: Server, config: Config, now: int, a: C.Action)
    requires Inv(s, config)
    ensures Inv(ClientStep(s, config, now, a), config)
  {
    var told := Informed(s, config, now, a);
    var (lost, registry) := C.Step(s.registry, config.leases, now, told);
    C.StepKeepsInv(s.registry, config.leases, now, told);
    LoseKeeps(s.(registry := registry), config, lost);
  }

  /** Both tables move on, with counter and retired set still shared. */
  lemma BothMove(s: Server, config: Config, f: F.FileState, d: D.DelegState)
    requires Inv(s, config) && F.Inv(f) && D.Inv(d, config.limits) && Shared(f, d)
    requires FR.Forward(s.files, f) && D.Fades(s.delegs, d)
    ensures Inv(s.(files := f, delegs := d), config)
  {
    forall o | o in d.table
      ensures o !in f.opens && o !in f.locks
    {
      assert o in s.delegs.table && o.counter < s.delegs.next;
    }
  }

  lemma FileStepKeeps(s: Server, config: Config, a: FR.Action)
    requires Inv(s, config) && !a.MarkRetired?
    ensures Inv(FileStep(s, a), config)
  {
    var f := FR.Step(s.files, a);
    var d := s.delegs.(next := f.next);
    assert FileStep(s, a) == s.(files := f, delegs := d);
    FR.StepKeepsInv(s.files, a);
    FR.StepForward(s.files, a);
    FR.StepKeepsRetired(s.files, a);
    CounterMoves(s.delegs, config.limits, f.next);
    BothMove(s, config, f, d);
  }

  lemma CounterMoves(d: D.DelegState, limits: D.Limits, next: nat)
    requires D.Inv(d, limits) && d.next <= next
    ensures D.Inv(d.(next := next), limits)
  {
    D.FadeKeeps(d, d.(next := next), limits);
  }

  lemma DelegStepKeeps(s: Server, config: Config, a: D.Action)
    requires Inv(s, config) && !a.MarkRetired?
    ensures Inv(DelegStep(s, config, a), config)
  {
    D.StepKeepsInv(s.delegs, config.limits, a);
    DelegStepAdds(s.delegs, config.limits, a);
    var d := D.Step(s.delegs, config.limits, a);
    FR.DropKeeps(s.files, s.files.(next := d.next));
  }

  lemma DelegStepAdds(d: D.DelegState, limits: D.Limits, a: D.Action)
    requires D.Inv(d, limits) && !a.MarkRetired?
    ensures var d' := D.Step(d, limits, a);
            && d.next <= d'.next && d'.retired == d.retired
            && forall o | o in d'.table && o !in d.table :: o.counter >= d.next
  {
    if a.GrantOne? {
      D.GrantAdds(d, limits, a.x, a.c);
    } else {
      D.StepFades(d, limits, a);
    }
  }

  lemma MarkKeeps(s: Server, config: Config, id: ObjectId)
    requires Inv(s, config)
    ensures Inv(Step(s, config, Mark(id)), config)
  {
    var f, d := FR.Step(s.files, FR.MarkRetired(id)), D.Step(s.delegs, config.limits, D.MarkRetired(id));
    assert Shared(f, d) && Step(s, config, Mark(id)) == s.(files := f, delegs := d);
    TablesMove(s, config, FR.MarkRetired(id), D.MarkRetired(id));
  }

  lemma SweepKeeps(s: Server, config: Config, ids: set<ObjectId>)
    requires Inv(s, config)
    ensures Inv(Step(s, config, Sweep(ids)), config)
  {
    var f, d := FR.Step(s.files, FR.Sweep(ids)), D.Step(s.delegs, config.limits, D.Sweep(ids));
    assert Shared(f, d) && Step(s, config, Sweep(ids)) == s.(files := f, delegs := d);
    TablesMove(s, config, FR.Sweep(ids), D.Sweep(ids));
  }

  lemma TablesMove(s: Server, config: Config, fa: FR.Action, da: D.Action)
    requires Inv(s, config) && !da.GrantOne?
    requires Shared(FR.Step(s.files, fa), D.Step(s.delegs, config.limits, da))
    ensures Inv(s.(files := FR.Step(s.files, fa), delegs := D.Step(s.delegs, config.limits, da)), config)
  {
    FR.StepKeepsInv(s.files, fa);
    FR.StepForward(s.files, fa);
    D.StepKeepsInv(s.delegs, config.limits, da);
    D.StepFades(s.delegs, config.limits, da);
    BothMove(s, config, FR.Step(s.files, fa), D.Step(s.delegs, config.limits, da));
  }

  lemma StepKeepsInv(s: Server, config: Config, a: Action)
    requires Inv(s, config) && a.Proper()
    ensures Inv(Step(s, config, a), config)
  {
    if a.ClientOp? {
      ClientStepKeeps(s, config, a.now, a.client);
    } else if a.FileOp? {
      FileStepKeeps(s, config, a.file);
    } else if a.DelegOp? {
      DelegStepKeeps(s, config, a.deleg);
    } else if a.Mark? {
      MarkKeeps(s, config, a.id);
    } else {
      SweepKeeps(s, config, a.ids);
    }
  }

  /** Every part's invariant holds in every run of the whole server. */
  lemma {:induction false} RunKeepsInv(s: Server, config: Config, actions: seq<Action>)
    requires Inv(s, config) && AllProper(actions)
    ensures Inv(Run(s, config, actions), config)
    decreases |actions|
  {
    if actions != [] {
      StepKeepsInv(s, config, actions[0]);
      RunKeepsInv(Step(s, config, actions[0]), config, actions[1..]);
    }
  }

  lemma StartIsInv(config: Config)
    ensures Inv(START, config)
  {
    D.EveryRunAgrees(config.limits, []);
    FR.RunKeepsInv(FR.EMPTY, []);
  }

  /** In every run a stateid names at most one of a delegation, an open or a lock. */
  lemma StateidNamesOneThing(config: Config, actions: seq<Action>, o: Other)
    requires AllProper(actions)
    ensures var s := Run(START, config, actions);
            && !(o in s.delegs.table && (o in s.files.opens || o in s.files.locks))
            && !(o in s.files.opens && o in s.files.locks)
  {
    StartIsInv(config);
    RunKeepsInv(START, config, actions);
  }

  // ---- Clients and their state ----

  /**
    When a client's record goes, or its lease is revoked, everything it held goes in the same step:
    its opens, its locks and its delegations, and with the record also its sessions.
   */
  lemma LostClientIsBare(s: Server, config: Config, now: int, a: C.Action, c: ClientId)
    requires Inv(s, config) && c in s.registry.clients
    ensures var s' := ClientStep(s, config, now, a);
            && (c !in s'.registry.clients ==> Bare(s', c) && !C.HasSession(s'.registry, c))
            && (c in s'.registry.clients && s.registry.clients[c].lease.Active? && s'.registry.clients[c].lease.Revoked?
                ==> Bare(s', c))
  {
    var told := Informed(s, config, now, a);
    var (lost, registry) := C.Step(s.registry, config.leases, now, told);
    C.StepKeepsInv(s.registry, config.leases, now, told);
    C.StepLoses(s.registry, config.leases, now, told, c);
    assert forall sid | sid in registry.sessions :: C.SessionOk(registry, sid);
  }

  /** DESTROY_CLIENTID is refused exactly while the client has a session or live state. */
  lemma BusyClientStays(s: Server, config: Config, now: int, c: ClientId)
    requires Inv(s, config)
    ensures var reaped := C.Reap(s.registry, config.leases, now);
            var left := Lose(s.(registry := reaped.1), reaped.0);
            var s' := ClientStep(s, config, now, C.EndingClient(c, false));
            if C.HasSession(left.registry, c) || HoldsState(left, c) then s' == left
            else c !in s'.registry.clients && Bare(s', c)
  {
    var (lost, reaped) := C.Reap(s.registry, config.leases, now);
    var busy := HoldsState(Lose(s, lost), c);
    var told := C.EndingClient(c, busy);
    assert Informed(s, config, now, C.EndingClient(c, false)) == told;
    var left := Lose(s.(registry := reaped), lost);
    assert HoldsState(left, c) == busy;
    EndingStep(s.registry, config.leases, now, c, busy);
    if C.HasSession(reaped, c) || busy {
      assert ClientStep(s, config, now, C.EndingClient(c, false)) == left;
    } else {
      LostIsBare(s.(registry := C.DropRecords(reaped, {c})), lost + {c}, c);
      assert ClientStep(s, config, now, C.EndingClient(c, false)) == Lose(s.(registry := C.DropRecords(reaped, {c})), lost + {c});
    }
  }

  lemma EndingStep(r: C.Registry, config: C.Config, now: int, c: ClientId, busy: bool)
    ensures var (lost, reaped) := C.Reap(r, config, now);
            C.Step(r, config, now, C.EndingClient(c, busy))
            == if C.HasSession(reaped, c) || busy then (lost, reaped) else (lost + {c}, C.DropRecords(reaped, {c}))
  {
    var (lost, reaped) := C.Reap(r, config, now);
    assert lost + {} == lost;
  }

  lemma LostIsBare(s: Server, lost: set<ClientId>, c: ClientId)
    requires c in lost
    ensures Bare(Lose(s, lost), c)
  {
  }

  /** An open, a lock or a live delegation keeps DESTROY_CLIENTID from doing anything. */
  lemma StateKeepsClient(s: Server, config: Config, now: int, c: ClientId, k: Other)
    requires Inv(s, config)
    requires var left := Lose(s, C.Reap(s.registry, config.leases, now).0);
             || (k in left.files.opens && left.files.opens[k].clientid == c)
             || (k in left.files.locks && left.files.locks[k].owner.clientid == c)
             || (k in left.delegs.table && left.delegs.table[k].clientid == c && left.delegs.table[k].status in {D.Granted, D.RecallInProgress})
    ensures var reaped := C.Reap(s.registry, config.leases, now);
            ClientStep(s, config, now, C.EndingClient(c, false)) == Lose(s.(registry := reaped.1), reaped.0)
  {
    var left := Lose(s, C.Reap(s.registry, config.leases, now).0);
    assert k in left.delegs.table && left.delegs.table[k].clientid == c && left.delegs.table[k].Live() ==> k in D.LiveOfClient(left.delegs, c);
    BusyClientStays(s, config, now, c);
  }

  /** What a step of the client records takes is exactly what belongs to the clients it loses. */
  lemma OnlyTheLostLose(s: Server, config: Config, now: int, a: C.Action, k: Other)
    requires Inv(s, config)
    ensures var s' := ClientStep(s, config, now, a);
            var lost := C.Step(s.registry, config.leases, now, Informed(s, config, now, a)).0;
            && (k in s'.files.opens <==> k in s.files.opens && s.files.opens[k].clientid !in lost)
            && (k in s'.files.opens ==> s'.files.opens[k] == s.files.opens[k])
            && (k in s'.files.locks <==> k in s.files.locks && s.files.locks[k].owner.clientid !in lost)
            && (k in s'.files.locks ==> s'.files.locks[k] == s.files.locks[k])
            && (k in s'.delegs.table <==> k in s.delegs.table && s.delegs.table[k].clientid !in lost)
            && (k in s'.delegs.table ==> s'.delegs.table[k] == s.delegs.table[k])
            && s'.files.next == s.files.next && s'.files.retired == s.files.retired
  {
  }

  /** The step hands the client an open, a lock or a delegation. */
  ghost predicate Gives(s: Server, config: Config, a: Action, c: ClientId) {
    || (a.FileOp? && FileGives(s.files, a.file, c))
    || (a.DelegOp? && DelegGives(s.delegs, config.limits, a.deleg, c))
  }

  ghost predicate FileGives(f: F.FileState, a: FR.Action, c: ClientId) {
    match a
    case OpenFile(obj, owner, access, deny) => owner.clientid == c && F.CreateOpen(f, obj, owner, access, deny).0.Success?
    case TakeLock(clientid, open, owner, obj, r) => owner.clientid == c && F.LockNew(f, clientid, open, owner, obj, r).0.Success?
    case _ => false
  }

  ghost predicate DelegGives(d: D.DelegState, limits: D.Limits, a: D.Action, c: ClientId) {
    a.GrantOne? && a.c == c && var r := D.GrantDir(d, limits, a.x, c).0; r.Success? && r.value.NewlyGranted?
  }

  lemma FileStepBare(f: F.FileState, a: FR.Action, c: ClientId)
    requires F.Inv(f) && NoFiles(f, c)
    ensures NoFiles(FR.Step(f, a), c) <==> !FileGives(f, a, c)
  {
    if a.OpenFile? {
      assert FR.Step(f, a) == F.CreateOpen(f, a.obj, a.owner, a.access, a.deny).1;
      OpenBare(f, a.obj, a.owner, a.access, a.deny, c);
    } else if a.TakeLock? {
      assert FR.Step(f, a) == F.LockNew(f, a.clientid, a.s, a.lockOwner, a.obj, a.range).1;
      LockBare(f, a.clientid, a.s, a.lockOwner, a.obj, a.range, c);
    } else {
      FR.StepAddsNothing(f, a);
      FR.StepForward(f, a);
      StillBare(f, FR.Step(f, a), c);
    }
  }

  lemma StillBare(f: F.FileState, f': F.FileState, c: ClientId)
    requires NoFiles(f, c) && FR.Forward(f, f') && f'.opens.Keys <= f.opens.Keys && f'.locks.Keys <= f.locks.Keys
    ensures NoFiles(f', c)
  {
  }

  lemma OpenBare(f: F.FileState, obj: ServerObject, owner: F.StateOwner, access: u32, deny: u32, c: ClientId)
    requires F.Inv(f) && NoFiles(f, c)
    ensures var (r, f') := F.CreateOpen(f, obj, owner, access, deny);
            NoFiles(f', c) <==> !(owner.clientid == c && r.Success?)
  {
    var (r, f') := F.CreateOpen(f, obj, owner, access, deny);
    if r.Success? {
      var k := r.value.other;
      assert f'.opens[k].clientid == owner.clientid;
      assert f'.opens == f.opens[k := f'.opens[k]];
    }
  }

  lemma LockBare(f: F.FileState, clientid: ClientId, open: Stateid, owner: F.StateOwner, obj: ServerObject,
                 range: LockRange, c: ClientId)
    requires F.Inv(f) && NoFiles(f, c)
    ensures var (r, f') := F.LockNew(f, clientid, open, owner, obj, range);
            NoFiles(f', c) <==> !(owner.clientid == c && r.Success?)
  {
    var (r, f') := F.LockNew(f, clientid, open, owner, obj, range);
    if r.Success? {
      var k := r.value.other;
      assert f'.locks[k].owner == owner;
      assert f'.locks == f.locks[k := f'.locks[k]];
    }
  }

  lemma DelegStepBare(d: D.DelegState, limits: D.Limits, a: D.Action, c: ClientId)
    requires D.Inv(d, limits) && NoDelegs(d, c)
    ensures NoDelegs(D.Step(d, limits, a), c) <==> !DelegGives(d, limits, a, c)
  {
    if a.GrantOne? {
      assert D.Step(d, limits, a) == D.GrantDir(d, limits, a.x, a.c).1;
      GrantBare(d, limits, a.x, a.c, c);
    } else {
      D.StepFades(d, limits, a);
      FadedBare(d, D.Step(d, limits, a), c);
    }
  }

  lemma FadedBare(d: D.DelegState, d': D.DelegState, c: ClientId)
    requires NoDelegs(d, c) && D.Fades(d, d')
    ensures NoDelegs(d', c)
  {
  }

  lemma GrantBare(d: D.DelegState, limits: D.Limits, x: ServerObject, to: ClientId, c: ClientId)
    requires NoDelegs(d, c)
    ensures var (r, d') := D.GrantDir(d, limits, x, to);
            NoDelegs(d', c) <==> !(to == c && r.Success? && r.value.NewlyGranted?)
  {
    var (r, d') := D.GrantDir(d, limits, x, to);
    if r.Success? && r.value.NewlyGranted? {
      var o := Other(d.next, to);
      assert d'.table == d.table[o := D.Deleg(x, to, 1, D.Granted)];
      assert o in d'.table;
    }
  }

  /** A client with nothing gets something in exactly the steps that hand it an open, a lock or a delegation. */
  lemma BareUnlessGiven(s: Server, config: Config, a: Action, c: ClientId)
    requires Inv(s, config) && a.Proper() && Bare(s, c)
    ensures Bare(Step(s, config, a), c) <==> !Gives(s, config, a, c)
  {
    match a
    case ClientOp(_, _) =>
    case FileOp(file) => FileStepBare(s.files, file, c);
    case DelegOp(deleg) => DelegStepBare(s.delegs, config.limits, deleg, c);
    case Mark(id) =>
    case Sweep(ids) =>
      FileStepBare(s.files, FR.Sweep(ids), c);
      DelegStepBare(s.delegs, config.limits, D.Sweep(ids), c);
  }

  ghost predicate GivesNothing(s: Server, config: Config, actions: seq<Action>, c: ClientId)
    requires AllProper(actions)
    decreases |actions|
  {
    actions == [] || (!Gives(s, config, actions[0], c) && GivesNothing(Step(s, config, actions[0]), config, actions[1..], c))
  }

  ghost predicate StaysBare(s: Server, config: Config, actions: seq<Action>, c: ClientId)
    requires AllProper(actions)
    decreases |actions|
  {
    Bare(s, c) && (actions != [] ==> StaysBare(Step(s, config, actions[0]), config, actions[1..], c))
  }

  /** A lost client stays without state through exactly the runs in which nothing is handed to it. */
  lemma {:induction false} StaysBareIff(s: Server, config: Config, actions: seq<Action>, c: ClientId)
    requires Inv(s, config) && AllProper(actions) && Bare(s, c)
    ensures StaysBare(s, config, actions, c) <==> GivesNothing(s, config, actions, c)
    decreases |actions|
  {
    if actions != [] {
      var s' := Step(s, config, actions[0]);
      StepKeepsInv(s, config, actions[0]);
      BareUnlessGiven(s, config, actions[0], c);
      if Bare(s', c) {
        StaysBareIff(s', config, actions[1..], c);
      }
    }
  }

  /** Opening does not look at the client's record: a client that registered and was destroyed can still get an open. */
  lemma DestroyedClientOpens(config: Config, now: int, owner: C.Owner, file: ObjectId, name: Bytes)
    ensures var s := Run(START, config, [ClientOp(now, C.Exchanging(owner, true))]);
            1 in s.registry.clients
    ensures var s := Run(START, config, [ClientOp(now, C.Exchanging(owner, true)), ClientOp(now, C.EndingClient(1, false))]);
            1 !in s.registry.clients && Bare(s, 1)
    ensures var s := Run(START, config, [ClientOp(now, C.Exchanging(owner, true)), ClientOp(now, C.EndingClient(1, false)),
                                         FileOp(FR.OpenFile(Fs(file), F.StateOwner(1, name), 1, 0))]);
            1 !in s.registry.clients && HoldsState(s, 1)
  {
    var register, destroy := ClientOp(now, C.Exchanging(owner, true)), ClientOp(now, C.EndingClient(1, false));
    var open := FileOp(FR.OpenFile(Fs(file), F.StateOwner(1, name), 1, 0));
    Registers(config, now, owner);
    var s1 := Step(START, config, register);
    var s2 := Step(s1, config, destroy);
    RunThree(START, config, register, destroy, open);
    Destroys(s1, config, now);
    OpensFirst(s2, config, file, name);
  }

  lemma RunThree(s: Server, config: Config, a: Action, b: Action, c: Action)
    requires a.Proper() && b.Proper() && c.Proper()
    ensures var s1 := Step(s, config, a);
            var s2 := Step(s1, config, b);
            && Run(s, config, [a]) == s1 && Run(s, config, [a, b]) == s2
            && Run(s, config, [a, b, c]) == Step(s2, config, c)
  {
    var s1 := Step(s, config, a);
    assert [a][1..] == [] && [b][1..] == [] && [c][1..] == [];
    assert [a, b][1..] == [b] && [b, c][1..] == [c] && [a, b, c][1..] == [b, c];
    assert Run(s1, config, [b]) == Step(s1, config, b);
    var s2 := Step(s1, config, b);
    assert Run(s2, config, [c]) == Step(s2, config, c);
    assert Run(s1, config, [b, c]) == Run(s2, config, [c]);
    assert Run(s, config, [a, b, c]) == Run(s1, config, [b, c]);
  }

  /** A client is registered; there is no session and no state yet. */
  ghost predicate Fresh(s: Server) {
    1 in s.registry.clients && s.registry.sessions == map[] && s.files == FR.EMPTY && s.delegs == D.EMPTY
  }

  lemma Registers(config: Config, now: int, owner: C.Owner)
    ensures Fresh(Step(START, config, ClientOp(now, C.Exchanging(owner, true))))
    ensures Inv(Step(START, config, ClientOp(now, C.Exchanging(owner, true))), config)
  {
    StartIsInv(config);
    StepKeepsInv(START, config, ClientOp(now, C.Exchanging(owner, true)));
  }

  lemma Destroys(s: Server, config: Config, now: int)
    requires Fresh(s) && Inv(s, config)
    ensures var s' := Step(s, config, ClientOp(now, C.EndingClient(1, false)));
            1 !in s'.registry.clients && Bare(s', 1) && s'.files.opens == map[] && s'.files.retired == {}
  {
    var lost := C.Reap(s.registry, config.leases, now).0;
    assert Lose(s, lost).files.opens == map[] && Lose(s, lost).files.locks == map[];
    BusyClientStays(s, config, now, 1);
  }

  lemma OpensFirst(s: Server, config: Config, file: ObjectId, name: Bytes)
    requires s.files.opens == map[] && s.files.retired == {}
    ensures var s' := Step(s, config, FileOp(FR.OpenFile(Fs(file), F.StateOwner(1, name), 1, 0)));
            s'.registry == s.registry && HoldsState(s', 1)
  {
    var s' := Step(s, config, FileOp(FR.OpenFile(Fs(file), F.StateOwner(1, name), 1, 0)));
    assert Other(s.files.next, 1) in s'.files.opens;
  }

  // ---- Retirement ----

  ghost predicate ClearOf(s: Server, ids: set<ObjectId>) {
    FR.ClearOf(s.files, ids) && D.ClearOf(s.delegs, ids)
  }

  lemma LoseStaysClear(s: Server, lost: set<ClientId>, ids: set<ObjectId>)
    requires ClearOf(s, ids)
    ensures ClearOf(Lose(s, lost), ids)
  {
  }

  lemma StepStaysClear(s: Server, config: Config, a: Action, ids: set<ObjectId>)
    requires Inv(s, config) && a.Proper() && ids <= s.files.retired && ClearOf(s, ids)
    ensures ClearOf(Step(s, config, a), ids) && ids <= Step(s, config, a).files.retired
  {
    if a.ClientOp? {
      var (lost, registry) := C.Step(s.registry, config.leases, a.now, Informed(s, config, a.now, a.client));
      LoseStaysClear(s.(registry := registry), lost, ids);
    } else {
      TablesStayClear(s, config, a, ids);
    }
  }

  lemma TablesStayClear(s: Server, config: Config, a: Action, ids: set<ObjectId>)
    requires Inv(s, config) && a.Proper() && !a.ClientOp? && ids <= s.files.retired && ClearOf(s, ids)
    ensures ClearOf(Step(s, config, a), ids) && ids <= Step(s, config, a).files.retired
  {
    if a.FileOp? {
      FR.StepStaysClear(s.files, a.file, ids);
      FR.StepForward(s.files, a.file);
    } else if a.DelegOp? {
      D.StepStaysClear(s.delegs, config.limits, a.deleg, ids);
    } else if a.Mark? {
      FR.StepStaysClear(s.files, FR.MarkRetired(a.id), ids);
      D.StepStaysClear(s.delegs, config.limits, D.MarkRetired(a.id), ids);
    } else {
      FR.StepStaysClear(s.files, FR.Sweep(a.ids), ids);
      D.StepStaysClear(s.delegs, config.limits, D.Sweep(a.ids), ids);
    }
  }

  lemma StepKeepsMarks(s: Server, config: Config, a: Action)
    requires Inv(s, config) && a.Proper()
    ensures s.files.retired <= Step(s, config, a).files.retired
  {
    if a.FileOp? {
      FR.StepForward(s.files, a.file);
    }
  }

  lemma MarkAdds(s: Server, config: Config, id: ObjectId)
    ensures Step(s, config, Mark(id)).files.retired == s.files.retired + {id}
  {
  }

  lemma SweepClears(s: Server, config: Config, ids: set<ObjectId>)
    ensures ClearOf(Step(s, config, Sweep(ids)), ids)
  {
    var s' := Step(s, config, Sweep(ids));
    assert s'.files == FR.Invalidate(s.files, ids) && s'.delegs == D.Invalidate(s.delegs, ids);
  }

  /** Objects marked and swept have no open, lock or delegation in any later run of the server. */
  lemma {:induction false} RetiredStayClear(s: Server, config: Config, actions: seq<Action>, ids: set<ObjectId>)
    requires Inv(s, config) && AllProper(actions) && ids <= s.files.retired && ClearOf(s, ids)
    ensures ClearOf(Run(s, config, actions), ids)
    decreases |actions|
  {
    if actions != [] {
      StepKeepsInv(s, config, actions[0]);
      StepStaysClear(s, config, actions[0], ids);
      RetiredStayClear(Step(s, config, actions[0]), config, actions[1..], ids);
    }
  }
}
