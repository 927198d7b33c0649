/**
  Minting a filehandle against retiring its object, at the grain of single operations on the
  two concurrent maps. Any number of minting calls and any number of retirement sweeps are
  interleaved in any order; the sweep walks the filehandle map one shard at a time.
 */
module MintProtocol {
  import opened NfsTypes

  /** The two filehandle layouts; their byte forms are disjoint (see module Filehandles). */
  datatype Fh = Boot(counter: nat) | Persistent(body: Bytes)

  // ---- One minting call ----

  datatype MintPc =
    | Lookup                          // about to read object_to_fh
    | Check                           // about to read the retired mark
    | ReadEncoding                    // about to read persistent_fh
    | Reserve(fh: Fh)                 // about to take the persistent bytes in fh_to_object
    | NextCounter                     // about to advance next_fh
    | Insert(fh: Fh)                  // about to insert into fh_to_object
    | Enter(fh: Fh)                   // about to take the object's entry in object_to_fh
    | Yield(fh: Fh, winner: Fh)       // lost the entry: about to withdraw fh
    | Recheck(fh: Fh)                 // published: about to re-read the mark
    | BackOutFh(fh: Fh)               // about to remove from fh_to_object
    | BackOutObject(fh: Fh)           // about to remove from object_to_fh
    | Returned(result: Option<Fh>)

  datatype Minter = Minter(obj: ServerObject, pc: MintPc) {
    predicate InFlight() {
      !pc.Lookup? && !pc.Returned?
    }

    /** The call still has to withdraw fh from fh_to_object once its object is retired. */
    predicate Withdraws(fh: Fh) {
      pc == Enter(fh) || (pc.Yield? && pc.fh == fh) || pc == Recheck(fh) || pc == BackOutFh(fh)
    }

    /** The handle the call is working on. */
    function Handle(): Option<Fh> {
      match pc
      case Reserve(fh) => Some(fh)
      case Insert(fh) => Some(fh)
      case Enter(fh) => Some(fh)
      case Yield(fh, _) => Some(fh)
      case Recheck(fh) => Some(fh)
      case BackOutFh(fh) => Some(fh)
      case BackOutObject(fh) => Some(fh)
      case _ => None
    }
  }

  // ---- One retirement sweep ----

  datatype SweepPc =
    | Marking(todo: set<ObjectId>)                                       // marks go in one by one
    | Collecting(shard: nat, stale: set<(Fh, ServerObject)>)             // about to visit `shard`
    | Removing(stale: set<(Fh, ServerObject)>)                           // about to remove a handle
    | Unnaming(fh: Fh, obj: ServerObject, stale: set<(Fh, ServerObject)>) // about to remove its object
    | Forgetting(todo: set<ObjectId>)                                    // drops persistent encodings
    | Swept

  datatype Sweeper = Sweeper(ids: set<ObjectId>, pc: SweepPc) {
    function Marked(): set<ObjectId> {
      if pc.Marking? then ids - pc.todo else ids
    }
  }

  // ---- The shared state ----

  /** How the concurrent map spreads its keys over its shards; unknown, but fixed. */
  datatype Shards = Shards(count: nat, of: Fh -> nat) {
    ghost predicate Valid() {
      forall fh :: of(fh) < count
    }
  }

  datatype World = World(
    fhToObject: map<Fh, ServerObject>,
    objectToFh: map<ServerObject, Fh>,
    persistent: map<ObjectId, Fh>,
    retired: set<ObjectId>,
    nextFh: nat,
    minters: map<nat, Minter>,
    sweepers: map<nat, Sweeper>,
    // History: the object each handle was made for. No step reads it.
    names: map<Fh, ServerObject>)

  datatype Action =
    | StartMint(t: nat, obj: ServerObject)
    | Mint(t: nat)
    | StartSweep(k: nat, ids: set<ObjectId>)
    | Mark(k: nat, id: ObjectId)
    | Visit(k: nat)
    | RemoveFh(k: nat, fh: Fh, obj: ServerObject)
    | RemoveObject(k: nat)
    | Forget(k: nat, id: ObjectId)
    | Finish(k: nat)

  /** Where the call goes next, given what it reads. */
  function NextPc(w: World, m: Minter): MintPc {
    match m.pc
    case Lookup => if m.obj in w.objectToFh then Returned(Some(w.objectToFh[m.obj])) else Check
    case Check => if m.obj.Base() in w.retired then Returned(None) else ReadEncoding
    case ReadEncoding =>
      if m.obj.Fs? && m.obj.id in w.persistent then Reserve(w.persistent[m.obj.id]) else NextCounter
    case Reserve(fh) =>
      if fh !in w.fhToObject || w.fhToObject[fh] == m.obj then Enter(fh) else NextCounter
    case NextCounter => Insert(Boot(w.nextFh))
    case Insert(fh) => Enter(fh)
    case Enter(fh) =>
      if m.obj !in w.objectToFh then Recheck(fh)
      else if w.objectToFh[m.obj] == fh then Returned(Some(fh))
      else Yield(fh, w.objectToFh[m.obj])
    case Yield(fh, winner) => Returned(Some(winner))
    case Recheck(fh) => if m.obj.Base() in w.retired then BackOutFh(fh) else Returned(Some(fh))
    case BackOutFh(fh) => BackOutObject(fh)
    case BackOutObject(fh) => Returned(None)
    case Returned(_) => m.pc
  }

  /** What the step does to fh_to_object. */
  function NextFhToObject(w: World, m: Minter): map<Fh, ServerObject> {
    match m.pc
    case Reserve(fh) => if fh !in w.fhToObject then w.fhToObject[fh := m.obj] else w.fhToObject
    case Insert(fh) => w.fhToObject[fh := m.obj]
    case Yield(fh, _) =>
      if fh in w.fhToObject && w.fhToObject[fh] == m.obj then w.fhToObject - {fh} else w.fhToObject
    case BackOutFh(fh) => w.fhToObject - {fh}
    case _ => w.fhToObject
  }

  /** What the step does to object_to_fh. */
  function NextObjectToFh(w: World, m: Minter): map<ServerObject, Fh> {
    match m.pc
    case Enter(fh) => if m.obj !in w.objectToFh then w.objectToFh[m.obj := fh] else w.objectToFh
    case BackOutObject(fh) => w.objectToFh - {m.obj}
    case _ => w.objectToFh
  }

  /** The next atomic operation of minting call t. */
  function MintStep(w: World, t: nat): World
    requires t in w.minters
  {
    var m := w.minters[t];
    w.(minters := w.minters[t := m.(pc := NextPc(w, m))],
       fhToObject := NextFhToObject(w, m),
       objectToFh := NextObjectToFh(w, m),
       nextFh := if m.pc.NextCounter? then w.nextFh + 1 else w.nextFh,
       names := if m.pc.NextCounter? then w.names[Boot(w.nextFh) := m.obj] else w.names)
  }

  /** The entries of one shard that belong to the sweep's objects. */
  function StaleIn(shards: Shards, w: World, ids: set<ObjectId>, shard: nat): set<(Fh, ServerObject)> {
    set fh | fh in w.fhToObject && shards.of(fh) == shard && w.fhToObject[fh].Base() in ids
           :: (fh, w.fhToObject[fh])
  }

  /** Where a sweep goes on action a; an action that is not its next one leaves it where it is. */
  function NextSweepPc(shards: Shards, w: World, s: Sweeper, a: Action): SweepPc {
    match (s.pc, a)
    case (Marking(todo), Mark(_, id)) => Marking(todo - {id})
    case (Marking(todo), Finish(_)) => if todo == {} then Collecting(0, {}) else s.pc
    case (Collecting(shard, stale), Visit(_)) =>
      if shard < shards.count then Collecting(shard + 1, stale + StaleIn(shards, w, s.ids, shard)) else Removing(stale)
    case (Removing(stale), RemoveFh(_, fh, obj)) =>
      if (fh, obj) in stale then Unnaming(fh, obj, stale - {(fh, obj)}) else s.pc
    case (Unnaming(_, _, stale), RemoveObject(_)) => Removing(stale)
    case (Removing(stale), Finish(_)) => if stale == {} then Forgetting(s.ids) else s.pc
    case (Forgetting(todo), Forget(_, id)) => Forgetting(todo - {id})
    case (Forgetting(todo), Finish(_)) => if todo == {} then Swept else s.pc
    case _ => s.pc
  }

  /** The next atomic operation of sweep k. */
  function SweepStep(shards: Shards, w: World, k: nat, a: Action): World
    requires k in w.sweepers
  {
    var s := w.sweepers[k];
    w.(sweepers := w.sweepers[k := s.(pc := NextSweepPc(shards, w, s, a))],
       retired := if s.pc.Marking? && a.Mark? && a.id in s.pc.todo then w.retired + {a.id} else w.retired,
       fhToObject := if s.pc.Removing? && a.RemoveFh? && (a.fh, a.obj) in s.pc.stale
                     then w.fhToObject - {a.fh} else w.fhToObject,
       objectToFh := if s.pc.Unnaming? && a.RemoveObject? then w.objectToFh - {s.pc.obj} else w.objectToFh,
       persistent := if s.pc.Forgetting? && a.Forget? && a.id in s.pc.todo then w.persistent - {a.id} else w.persistent)
  }

  function AddMinter(w: World, t: nat, obj: ServerObject): World {
    w.(minters := w.minters[t := Minter(obj, Lookup)])
  }

  function AddSweeper(w: World, k: nat, ids: set<ObjectId>): World {
    w.(sweepers := w.sweepers[k := Sweeper(ids, Marking(ids))])
  }

  function Do(shards: Shards, w: World, a: Action): World {
    match a
    case StartMint(t, obj) => if t in w.minters then w else AddMinter(w, t, obj)
    case Mint(t) => if t in w.minters then MintStep(w, t) else w
    case StartSweep(k, ids) => if k in w.sweepers then w else AddSweeper(w, k, ids)
    case _ =>
      if a.k in w.sweepers then SweepStep(shards, w, a.k, a) else w
  }

  function Run(shards: Shards, w: World, actions: seq<Action>): World
    decreases |actions|
  {
    if actions == [] then w else Run(shards, Do(shards, w, actions[0]), actions[1..])
  }

  /** A server that has minted nothing, whose backend gave the objects in `persistent` durable, distinct bytes. */
  ghost predicate Start(w: World) {
    && w.fhToObject == map[] && w.objectToFh == map[] && w.retired == {}
    && w.minters == map[] && w.sweepers == map[]
    && (forall id | id in w.persistent :: w.persistent[id].Persistent?)
    && (forall i, j | i in w.persistent && j in w.persistent && w.persistent[i] == w.persistent[j] :: i == j)
    && (forall id | id in w.persistent :: w.persistent[id] in w.names && w.names[w.persistent[id]] == Fs(id))
    && (forall fh | fh in w.names :: w.names[fh].Fs? && w.names[fh].id in w.persistent
                                     && w.persistent[w.names[fh].id] == fh)
  }

  /** The bytes of o, if it has durable ones, are not being minted by two calls at once. */
  ghost predicate OneAtATime(w: World) {
    forall s, t | s in w.minters && t in w.minters && s != t
                  && w.minters[s].obj == w.minters[t].obj
                  && w.minters[s].InFlight() && w.minters[t].InFlight() ::
      Ephemeral(w, w.minters[s].obj)
  }

  /** o only ever gets boot-scoped handles. */
  ghost predicate Ephemeral(w: World, o: ServerObject) {
    forall fh | fh in w.names && w.names[fh] == o :: fh.Boot?
  }

  ghost predicate Disciplined(shards: Shards, w: World, actions: seq<Action>)
    decreases |actions|
  {
    OneAtATime(w) && (actions != [] ==> Disciplined(shards, Do(shards, w, actions[0]), actions[1..]))
  }

  // ---- The invariant ----

  /** Sweep s will still remove the entry fh -> o from fh_to_object. */
  predicate SweepRemoves(shards: Shards, s: Sweeper, fh: Fh, o: ServerObject) {
    match s.pc
    case Marking(todo) => true
    case Collecting(shard, stale) => shards.of(fh) >= shard || (fh, o) in stale
    case Removing(stale) => (fh, o) in stale
    case Unnaming(_, _, stale) => (fh, o) in stale
    case _ => false
  }

  function Pending(s: Sweeper): set<(Fh, ServerObject)> {
    match s.pc
    case Collecting(_, stale) => stale
    case Removing(stale) => stale
    case Unnaming(fh, obj, stale) => stale + {(fh, obj)}
    case _ => {}
  }

  ghost predicate Made(w: World, fh: Fh, o: ServerObject) {
    fh in w.names && w.names[fh] == o
  }

  /** Every handle is used only for the one object it was made for. */
  ghost predicate Named(w: World) {
    && (forall fh | fh in w.names && fh.Boot? :: fh.counter < w.nextFh)
    && (forall fh | fh in w.fhToObject :: Made(w, fh, w.fhToObject[fh]))
    && (forall o | o in w.objectToFh :: Made(w, w.objectToFh[o], o))
    && (forall t | t in w.minters :: NamedMinter(w, w.minters[t]))
    && (forall k | k in w.sweepers :: NamedSweeper(w, w.sweepers[k]))
    && (forall id | id in w.persistent :: w.persistent[id].Persistent? && Made(w, w.persistent[id], Fs(id)))
  }

  ghost predicate NamedMinter(w: World, m: Minter) {
    && (m.Handle().Some? ==> Made(w, m.Handle().value, m.obj))
    && (m.pc.Reserve? ==> m.pc.fh.Persistent?)
    && (m.pc.Insert? ==> m.pc.fh.Boot?)
  }

  ghost predicate NamedSweeper(w: World, s: Sweeper) {
    forall p | p in Pending(s) :: Made(w, p.0, p.1) && p.1.Base() in s.ids
  }

  /** A boot-scoped handle belongs to one call and is unpublished until that call enters it. */
  ghost predicate Owned(w: World) {
    && (forall s, t | s in w.minters && t in w.minters && s != t :: Distinct(w.minters[s], w.minters[t]))
    && (forall t | t in w.minters :: OwnedMinter(w, w.minters[t]))
  }

  predicate Distinct(m: Minter, n: Minter) {
    m.Handle().Some? && m.Handle().value.Boot? ==> m.Handle() != n.Handle()
  }

  ghost predicate OwnedMinter(w: World, m: Minter) {
    && (m.pc.Insert? ==> m.pc.fh !in w.fhToObject)
    && ((m.pc.Insert? || m.pc.Enter? || m.pc.Yield?) && m.obj in w.objectToFh ==> w.objectToFh[m.obj] != m.pc.fh)
    && (Unpublished(m) && !Ephemeral(w, m.obj) ==> m.obj !in w.objectToFh)
  }

  predicate Unpublished(m: Minter) {
    m.pc.Check? || m.pc.ReadEncoding? || m.pc.Reserve? || m.pc.NextCounter? || m.pc.Insert? || m.pc.Enter?
  }

  /** Unless its object is retired, a call that reserved a handle still has it in fh_to_object. */
  ghost predicate Held(w: World) {
    forall t | t in w.minters :: HeldMinter(w, w.minters[t])
  }

  ghost predicate HeldMinter(w: World, m: Minter) {
    && ((m.pc.Enter? || m.pc.Recheck?) && m.obj.Base() !in w.retired ==>
          m.pc.fh in w.fhToObject && w.fhToObject[m.pc.fh] == m.obj)
    && (m.pc.BackOutFh? || m.pc.BackOutObject? ==> m.obj.Base() in w.retired)
  }

  /** The call is going to remove its object from object_to_fh. */
  predicate Unpublishes(w: World, m: Minter) {
    m.pc.BackOutFh? || m.pc.BackOutObject? || (m.pc.Recheck? && m.obj.Base() in w.retired)
  }

  /** Every published object has its handle in the other map, or someone is about to unpublish it. */
  ghost predicate Paired(w: World) {
    forall o | o in w.objectToFh :: PairedAt(w, o)
  }

  ghost predicate PairedAt(w: World, o: ServerObject)
    requires o in w.objectToFh
  {
    || (w.objectToFh[o] in w.fhToObject && w.fhToObject[w.objectToFh[o]] == o)
    || (exists t | t in w.minters :: w.minters[t].obj == o && Unpublishes(w, w.minters[t]))
    || (exists k | k in w.sweepers :: w.sweepers[k].pc.Unnaming? && w.sweepers[k].pc.obj == o)
  }

  /** Every entry of an object that sweep k has marked will be withdrawn by its call or removed by k. */
  ghost predicate Covered(shards: Shards, w: World) {
    forall k, fh | k in w.sweepers && fh in w.fhToObject && w.fhToObject[fh].Base() in w.sweepers[k].Marked() ::
      CoveredAt(shards, w, k, fh)
  }

  ghost predicate CoveredAt(shards: Shards, w: World, k: nat, fh: Fh)
    requires k in w.sweepers && fh in w.fhToObject
  {
    || SweepRemoves(shards, w.sweepers[k], fh, w.fhToObject[fh])
    || exists t | t in w.minters :: w.minters[t].obj == w.fhToObject[fh] && w.minters[t].Withdraws(fh)
  }

  ghost predicate Inv(shards: Shards, w: World) {
    && Named(w) && Owned(w) && Held(w) && Paired(w) && Covered(shards, w)
    && MarksStand(w)
  }

  ghost predicate MarksStand(w: World) {
    forall k | k in w.sweepers :: w.sweepers[k].Marked() <= w.retired
  }

  // ---- Every step keeps it ----

  /** What a minting step leaves alone. */
  lemma MintFrame(w: World, t: nat)
    requires t in w.minters && Named(w)
    ensures var w' := MintStep(w, t);
            && w'.minters.Keys == w.minters.Keys
            && (forall s | s in w.minters && s != t :: w'.minters[s] == w.minters[s])
            && w'.minters[t].obj == w.minters[t].obj
            && w'.sweepers == w.sweepers && w'.retired == w.retired && w'.persistent == w.persistent
            && w'.nextFh >= w.nextFh
            && (forall fh, o | Made(w, fh, o) :: Made(w', fh, o))
            && (forall fh, o | Made(w', fh, o) && !Made(w, fh, o) :: fh == Boot(w.nextFh))
  {
  }

  lemma MintKeepsNamed(w: World, t: nat)
    requires t in w.minters && Named(w)
    ensures Named(MintStep(w, t))
  {
    var w' := MintStep(w, t);
    MintFrame(w, t);
    forall s | s in w'.minters
      ensures NamedMinter(w', w'.minters[s])
    {
      assert NamedMinter(w, w.minters[s]);
    }
    forall k | k in w'.sweepers
      ensures NamedSweeper(w', w'.sweepers[k])
    {
      assert NamedSweeper(w, w.sweepers[k]);
    }
  }

  lemma MintKeepsOwned(w: World, t: nat)
    requires t in w.minters && Named(w) && Owned(w) && OneAtATime(w)
    ensures Owned(MintStep(w, t))
  {
    var w' := MintStep(w, t);
    MintFrame(w, t);
    forall s, u | s in w'.minters && u in w'.minters && s != u
      ensures Distinct(w'.minters[s], w'.minters[u])
    {
      MintKeepsDistinct(w, t, s, u);
    }
    forall s | s in w'.minters
      ensures OwnedMinter(w', w'.minters[s])
    {
      MintKeepsOwnedMinter(w, t, s);
    }
  }

  lemma MintKeepsDistinct(w: World, t: nat, s: nat, u: nat)
    requires t in w.minters && Named(w) && Owned(w) && s in w.minters && u in w.minters && s != u
    ensures Distinct(MintStep(w, t).minters[s], MintStep(w, t).minters[u])
  {
    MintFrame(w, t);
    assert Distinct(w.minters[s], w.minters[u]) && Distinct(w.minters[u], w.minters[s]);
    assert NamedMinter(w, w.minters[s]) && NamedMinter(w, w.minters[u]);
  }

  lemma MintKeepsOwnedMinter(w: World, t: nat, s: nat)
    requires t in w.minters && s in w.minters && Named(w) && Owned(w) && OneAtATime(w)
    ensures OwnedMinter(MintStep(w, t), MintStep(w, t).minters[s])
  {
    if s == t {
      MintKeepsOwnedSelf(w, t);
    } else {
      MintKeepsOwnedOther(w, t, s);
    }
  }

  lemma MintKeepsOwnedSelf(w: World, t: nat)
    requires t in w.minters && Named(w) && Owned(w) && OneAtATime(w)
    ensures OwnedMinter(MintStep(w, t), MintStep(w, t).minters[t])
  {
    var w' := MintStep(w, t);
    MintFrame(w, t);
    assert OwnedMinter(w, w.minters[t]) && NamedMinter(w, w.minters[t]);
    assert Ephemeral(w, w.minters[t].obj) ==> Ephemeral(w', w.minters[t].obj);
  }

  lemma MintKeepsOwnedOther(w: World, t: nat, s: nat)
    requires t in w.minters && s in w.minters && s != t && Named(w) && Owned(w) && OneAtATime(w)
    ensures OwnedMinter(MintStep(w, t), MintStep(w, t).minters[s])
  {
    var w' := MintStep(w, t);
    MintFrame(w, t);
    assert OwnedMinter(w, w.minters[s]) && OwnedMinter(w, w.minters[t]);
    assert NamedMinter(w, w.minters[s]) && NamedMinter(w, w.minters[t]);
    assert Ephemeral(w, w.minters[s].obj) ==> Ephemeral(w', w.minters[s].obj);
    assert Distinct(w.minters[s], w.minters[t]);
  }

  lemma MintKeepsHeld(w: World, t: nat)
    requires t in w.minters && Named(w) && Owned(w) && Held(w) && OneAtATime(w)
    ensures Held(MintStep(w, t))
  {
    var w' := MintStep(w, t);
    MintFrame(w, t);
    var m := w.minters[t];
    assert NamedMinter(w, m) && OwnedMinter(w, m) && HeldMinter(w, m);
    forall s | s in w'.minters
      ensures HeldMinter(w', w'.minters[s])
    {
      var n := w.minters[s];
      assert NamedMinter(w, n) && HeldMinter(w, n);
      if s != t && n.Handle().Some? && n.Handle() == m.Handle() {
        assert Distinct(n, m);
        assert !Ephemeral(w, n.obj);
      }
    }
  }

  lemma MintKeepsPaired(w: World, t: nat)
    requires t in w.minters && Named(w) && Owned(w) && Held(w) && Paired(w)
    ensures Paired(MintStep(w, t))
  {
    var w' := MintStep(w, t);
    MintFrame(w, t);
    var m := w.minters[t];
    assert NamedMinter(w, m) && OwnedMinter(w, m) && HeldMinter(w, m);
    forall o | o in w'.objectToFh
      ensures PairedAt(w', o)
    {
      if o in w.objectToFh {
        assert PairedAt(w, o) && Made(w, w.objectToFh[o], o);
        if u :| u in w.minters && w.minters[u].obj == o && Unpublishes(w, w.minters[u]) {
          assert Unpublishes(w', w'.minters[u]);
        }
        if k :| k in w.sweepers && w.sweepers[k].pc.Unnaming? && w.sweepers[k].pc.obj == o {
          assert w'.sweepers[k].pc.obj == o;
        }
        if m.pc.BackOutFh? && o == m.obj {
          assert Unpublishes(w', w'.minters[t]);
        }
      } else if o.Base() in w.retired {
        assert Unpublishes(w', w'.minters[t]);
      }
    }
  }

  lemma MintKeepsCovered(shards: Shards, w: World, t: nat)
    requires t in w.minters && Inv(shards, w) && OneAtATime(w)
    ensures Covered(shards, MintStep(w, t))
  {
    var w' := MintStep(w, t);
    MintFrame(w, t);
    assert NamedMinter(w, w.minters[t]) && OwnedMinter(w, w.minters[t]);
    forall k, fh | k in w'.sweepers && fh in w'.fhToObject && w'.fhToObject[fh].Base() in w'.sweepers[k].Marked()
      ensures CoveredAt(shards, w', k, fh)
    {
      if fh in w.fhToObject && w.fhToObject[fh] == w'.fhToObject[fh] {
        assert CoveredAt(shards, w, k, fh);
      } else {
        assert w'.minters[t].Withdraws(fh);
      }
    }
  }

  lemma SweepKeepsNamed(shards: Shards, w: World, k: nat, a: Action)
    requires k in w.sweepers && Named(w)
    ensures Named(SweepStep(shards, w, k, a))
  {
    var w' := SweepStep(shards, w, k, a);
    assert w'.names == w.names && w'.minters == w.minters;
    forall j | j in w'.sweepers
      ensures NamedSweeper(w', w'.sweepers[j])
    {
      assert NamedSweeper(w, w.sweepers[j]);
    }
    forall t | t in w'.minters
      ensures NamedMinter(w', w'.minters[t])
    {
      assert NamedMinter(w, w.minters[t]);
    }
  }

  lemma SweepKeepsOwned(shards: Shards, w: World, k: nat, a: Action)
    requires k in w.sweepers && Owned(w)
    ensures Owned(SweepStep(shards, w, k, a))
  {
    var w' := SweepStep(shards, w, k, a);
    forall t | t in w'.minters
      ensures OwnedMinter(w', w'.minters[t])
    {
      assert OwnedMinter(w, w.minters[t]);
      assert Ephemeral(w, w.minters[t].obj) ==> Ephemeral(w', w.minters[t].obj);
    }
  }

  lemma SweepKeepsHeld(shards: Shards, w: World, k: nat, a: Action)
    requires k in w.sweepers && Named(w) && Held(w) && MarksStand(w)
    ensures Held(SweepStep(shards, w, k, a))
  {
    var w' := SweepStep(shards, w, k, a);
    assert NamedSweeper(w, w.sweepers[k]);
    forall t | t in w'.minters
      ensures HeldMinter(w', w'.minters[t])
    {
      assert NamedMinter(w, w.minters[t]) && HeldMinter(w, w.minters[t]);
      if a.RemoveFh? && w.sweepers[k].pc.Removing? && (a.fh, a.obj) in w.sweepers[k].pc.stale {
        assert (a.fh, a.obj) in Pending(w.sweepers[k]);
      }
    }
  }

  lemma SweepKeepsPaired(shards: Shards, w: World, k: nat, a: Action)
    requires k in w.sweepers && Named(w) && Paired(w)
    ensures Paired(SweepStep(shards, w, k, a))
  {
    var w' := SweepStep(shards, w, k, a);
    var s := w.sweepers[k];
    assert NamedSweeper(w, s);
    forall o | o in w'.objectToFh
      ensures PairedAt(w', o)
    {
      assert PairedAt(w, o) && Made(w, w.objectToFh[o], o);
      if t :| t in w.minters && w.minters[t].obj == o && Unpublishes(w, w.minters[t]) {
        assert Unpublishes(w', w'.minters[t]);
      }
      if j :| j in w.sweepers && w.sweepers[j].pc.Unnaming? && w.sweepers[j].pc.obj == o {
        assert w'.sweepers[j].pc == w.sweepers[j].pc;
      }
      if s.pc.Removing? && a.RemoveFh? && (a.fh, a.obj) in s.pc.stale && a.fh == w.objectToFh[o] {
        assert (a.fh, a.obj) in Pending(s);
        assert w'.sweepers[k].pc.Unnaming? && w'.sweepers[k].pc.obj == o;
      }
    }
  }

  lemma SweepKeepsCovered(shards: Shards, w: World, k: nat, a: Action)
    requires k in w.sweepers && Inv(shards, w) && shards.Valid()
    ensures Covered(shards, SweepStep(shards, w, k, a))
  {
    var w' := SweepStep(shards, w, k, a);
    forall j, fh | j in w'.sweepers && fh in w'.fhToObject && w'.fhToObject[fh].Base() in w'.sweepers[j].Marked()
      ensures CoveredAt(shards, w', j, fh)
    {
      if w'.fhToObject[fh].Base() in w.sweepers[j].Marked() {
        assert CoveredAt(shards, w, j, fh);
        if t :| t in w.minters && w.minters[t].obj == w.fhToObject[fh] && w.minters[t].Withdraws(fh) {
          assert w'.minters[t].Withdraws(fh);
        }
      }
    }
  }

  lemma MintKeepsInv(shards: Shards, w: World, t: nat)
    requires t in w.minters && Inv(shards, w) && OneAtATime(w)
    ensures Inv(shards, MintStep(w, t))
  {
    MintFrame(w, t);
    MintKeepsNamed(w, t);
    MintKeepsOwned(w, t);
    MintKeepsHeld(w, t);
    MintKeepsPaired(w, t);
    MintKeepsCovered(shards, w, t);
  }

  lemma SweepKeepsInv(shards: Shards, w: World, k: nat, a: Action)
    requires k in w.sweepers && Inv(shards, w) && shards.Valid()
    ensures Inv(shards, SweepStep(shards, w, k, a))
  {
    SweepKeepsNamed(shards, w, k, a);
    SweepKeepsOwned(shards, w, k, a);
    SweepKeepsHeld(shards, w, k, a);
    SweepKeepsPaired(shards, w, k, a);
    SweepKeepsCovered(shards, w, k, a);
  }

  /** A new call holds nothing yet. */
  lemma AddMinterKeepsInv(shards: Shards, w: World, t: nat, obj: ServerObject)
    requires t !in w.minters && Inv(shards, w)
    ensures Inv(shards, AddMinter(w, t, obj))
  {
    AddMinterKeepsCalls(w, t, obj);
    AddMinterKeepsMaps(shards, w, t, obj);
  }

  lemma AddMinterKeepsCalls(w: World, t: nat, obj: ServerObject)
    requires t !in w.minters && Named(w) && Owned(w) && Held(w)
    ensures Named(AddMinter(w, t, obj)) && Owned(AddMinter(w, t, obj)) && Held(AddMinter(w, t, obj))
  {
    var w' := AddMinter(w, t, obj);
    forall u | u in w'.minters
      ensures NamedMinter(w', w'.minters[u]) && OwnedMinter(w', w'.minters[u]) && HeldMinter(w', w'.minters[u])
    {
      if u in w.minters {
        assert NamedMinter(w, w.minters[u]) && OwnedMinter(w, w.minters[u]) && HeldMinter(w, w.minters[u]);
        assert Ephemeral(w, w.minters[u].obj) ==> Ephemeral(w', w.minters[u].obj);
      }
    }
    forall k | k in w'.sweepers
      ensures NamedSweeper(w', w'.sweepers[k])
    {
      assert NamedSweeper(w, w.sweepers[k]);
    }
  }

  lemma AddMinterKeepsMaps(shards: Shards, w: World, t: nat, obj: ServerObject)
    requires t !in w.minters && Paired(w) && Covered(shards, w)
    ensures Paired(AddMinter(w, t, obj)) && Covered(shards, AddMinter(w, t, obj))
  {
    var w' := AddMinter(w, t, obj);
    forall o | o in w'.objectToFh
      ensures PairedAt(w', o)
    {
      assert PairedAt(w, o);
      if u :| u in w.minters && w.minters[u].obj == o && Unpublishes(w, w.minters[u]) {
        assert Unpublishes(w', w'.minters[u]);
      }
    }
    forall k, fh | k in w'.sweepers && fh in w'.fhToObject && w'.fhToObject[fh].Base() in w'.sweepers[k].Marked()
      ensures CoveredAt(shards, w', k, fh)
    {
      assert CoveredAt(shards, w, k, fh);
      if u :| u in w.minters && w.minters[u].obj == w.fhToObject[fh] && w.minters[u].Withdraws(fh) {
        assert w'.minters[u].Withdraws(fh);
      }
    }
  }

  /** A new sweep has marked nothing yet. */
  lemma AddSweeperKeepsInv(shards: Shards, w: World, k: nat, ids: set<ObjectId>)
    requires k !in w.sweepers && Inv(shards, w)
    ensures Inv(shards, AddSweeper(w, k, ids))
  {
    AddSweeperKeepsCalls(w, k, ids);
    AddSweeperKeepsMaps(shards, w, k, ids);
  }

  lemma AddSweeperKeepsCalls(w: World, k: nat, ids: set<ObjectId>)
    requires k !in w.sweepers && Named(w) && Owned(w) && Held(w)
    ensures Named(AddSweeper(w, k, ids)) && Owned(AddSweeper(w, k, ids)) && Held(AddSweeper(w, k, ids))
  {
    var w' := AddSweeper(w, k, ids);
    forall u | u in w'.minters
      ensures NamedMinter(w', w'.minters[u]) && OwnedMinter(w', w'.minters[u]) && HeldMinter(w', w'.minters[u])
    {
      assert NamedMinter(w, w.minters[u]) && OwnedMinter(w, w.minters[u]) && HeldMinter(w, w.minters[u]);
      assert Ephemeral(w, w.minters[u].obj) ==> Ephemeral(w', w.minters[u].obj);
    }
    forall j | j in w'.sweepers
      ensures NamedSweeper(w', w'.sweepers[j])
    {
      if j in w.sweepers {
        assert NamedSweeper(w, w.sweepers[j]);
      }
    }
  }

  lemma AddSweeperKeepsMaps(shards: Shards, w: World, k: nat, ids: set<ObjectId>)
    requires k !in w.sweepers && Paired(w) && Covered(shards, w)
    ensures Paired(AddSweeper(w, k, ids)) && Covered(shards, AddSweeper(w, k, ids))
  {
    var w' := AddSweeper(w, k, ids);
    forall o | o in w'.objectToFh
      ensures PairedAt(w', o)
    {
      assert PairedAt(w, o);
      if j :| j in w.sweepers && w.sweepers[j].pc.Unnaming? && w.sweepers[j].pc.obj == o {
        assert w'.sweepers[j].pc.obj == o;
      }
    }
    forall j, fh | j in w'.sweepers && fh in w'.fhToObject && w'.fhToObject[fh].Base() in w'.sweepers[j].Marked()
      ensures CoveredAt(shards, w', j, fh)
    {
      assert j in w.sweepers && CoveredAt(shards, w, j, fh);
    }
  }

  lemma StepKeepsInv(shards: Shards, w: World, a: Action)
    requires Inv(shards, w) && shards.Valid() && OneAtATime(w)
    ensures Inv(shards, Do(shards, w, a))
  {
    if a.StartMint? {
      if a.t !in w.minters {
        AddMinterKeepsInv(shards, w, a.t, a.obj);
      }
    } else if a.StartSweep? {
      if a.k !in w.sweepers {
        AddSweeperKeepsInv(shards, w, a.k, a.ids);
      }
    } else if a.Mint? {
      if a.t in w.minters {
        MintKeepsInv(shards, w, a.t);
      }
    } else if a.k in w.sweepers {
      SweepKeepsInv(shards, w, a.k, a);
    }
  }

  lemma {:induction false} RunKeepsInv(shards: Shards, w: World, actions: seq<Action>)
    requires Inv(shards, w) && shards.Valid() && Disciplined(shards, w, actions)
    ensures Inv(shards, Run(shards, w, actions))
    decreases |actions|
  {
    if actions != [] {
      StepKeepsInv(shards, w, actions[0]);
      RunKeepsInv(shards, Do(shards, w, actions[0]), actions[1..]);
    }
  }

  // ---- What it means ----

  /** No minting call and no sweep is under way. */
  ghost predicate Quiet(w: World) {
    && (forall t | t in w.minters :: !w.minters[t].InFlight())
    && (forall k | k in w.sweepers :: w.sweepers[k].pc.Swept?)
  }

  /** Sweep k has finished, and every minting call for its objects has too. */
  ghost predicate SweptClean(w: World, k: nat) {
    && k in w.sweepers && (w.sweepers[k].pc.Swept? || w.sweepers[k].pc.Forgetting?)
    && forall t | t in w.minters && w.minters[t].obj.Base() in w.sweepers[k].ids :: !w.minters[t].InFlight()
  }

  lemma CleanNow(shards: Shards, w: World, k: nat, fh: Fh)
    requires Inv(shards, w) && SweptClean(w, k) && fh in w.fhToObject
    ensures w.fhToObject[fh].Base() !in w.sweepers[k].ids
  {
    assert w.fhToObject[fh].Base() in w.sweepers[k].Marked() ==> CoveredAt(shards, w, k, fh);
  }

  lemma UnnamedNow(shards: Shards, w: World, k: nat, o: ServerObject)
    requires Inv(shards, w) && Quiet(w) && k in w.sweepers && o in w.objectToFh
    ensures o.Base() !in w.sweepers[k].ids
  {
    assert PairedAt(w, o);
    CleanNow(shards, w, k, w.objectToFh[o]);
  }

  /**
    In every interleaving: once a sweep has finished and the minting calls for its objects have
    returned, no filehandle resolves to any of them, even while other sweeps are under way.
   */
  lemma RetiredObjectsDoNotResolve(shards: Shards, w: World, actions: seq<Action>, k: nat)
    requires Start(w) && shards.Valid() && Disciplined(shards, w, actions)
    requires SweptClean(Run(shards, w, actions), k)
    ensures var w' := Run(shards, w, actions);
            forall fh | fh in w'.fhToObject :: w'.fhToObject[fh].Base() !in w'.sweepers[k].ids
  {
    RunKeepsInv(shards, w, actions);
    var w' := Run(shards, w, actions);
    forall fh | fh in w'.fhToObject
      ensures w'.fhToObject[fh].Base() !in w'.sweepers[k].ids
    {
      CleanNow(shards, w', k, fh);
    }
  }

  /** Once everything has finished, neither map holds an entry for a retired object. */
  lemma NothingRetiredSurvives(shards: Shards, w: World, actions: seq<Action>)
    requires Start(w) && shards.Valid() && Disciplined(shards, w, actions)
    requires Quiet(Run(shards, w, actions))
    ensures AllClean(Run(shards, w, actions))
  {
    RunKeepsInv(shards, w, actions);
    QuietIsClean(shards, Run(shards, w, actions));
  }

  lemma QuietIsClean(shards: Shards, w: World)
    requires Inv(shards, w) && Quiet(w)
    ensures AllClean(w)
  {
    forall k | k in w.sweepers
      ensures forall fh | fh in w.fhToObject :: w.fhToObject[fh].Base() !in w.sweepers[k].ids
      ensures forall o | o in w.objectToFh :: o.Base() !in w.sweepers[k].ids
    {
      forall fh | fh in w.fhToObject
        ensures w.fhToObject[fh].Base() !in w.sweepers[k].ids
      {
        CleanNow(shards, w, k, fh);
      }
      forall o | o in w.objectToFh
        ensures o.Base() !in w.sweepers[k].ids
      {
        UnnamedNow(shards, w, k, o);
      }
    }
  }

  /** With boot-scoped handles only, the condition on concurrent calls is no condition at all. */
  lemma {:induction false} BootScopedIsDisciplined(shards: Shards, w: World, actions: seq<Action>)
    requires w.persistent == map[] && forall fh | fh in w.names :: fh.Boot?
    ensures Disciplined(shards, w, actions)
    decreases |actions|
  {
    assert OneAtATime(w);
    if actions != [] {
      BootScopedIsDisciplined(shards, Do(shards, w, actions[0]), actions[1..]);
    }
  }

  // ---- Two calls for one object with durable bytes ----

  lemma {:induction false} RunAppend(shards: Shards, w: World, actions: seq<Action>, a: Action)
    ensures Run(shards, w, actions + [a]) == Do(shards, Run(shards, w, actions), a)
    decreases |actions|
  {
    if actions == [] {
      assert ([a])[1..] == [] && actions + [a] == [a];
    } else {
      assert (actions + [a])[1..] == actions[1..] + [a];
      RunAppend(shards, Do(shards, w, actions[0]), actions[1..], a);
    }
  }

  lemma Then(shards: Shards, w: World, actions: seq<Action>, now: World, a: Action, next: World)
    returns (actions': seq<Action>)
    requires Run(shards, w, actions) == now && Do(shards, now, a) == next
    ensures Run(shards, w, actions') == next
  {
    actions' := actions + [a];
    RunAppend(shards, w, actions, a);
  }

  /** now, with call t for object id at pc. */
  function Put(now: World, t: nat, id: ObjectId, pc: MintPc): World {
    now.(minters := now.minters[t := Minter(Fs(id), pc)])
  }

  /** Call t of object id is at `from` and its next operation, on the rest of the state, leads to `next`. */
  lemma ThenMint(shards: Shards, w: World, before: seq<Action>, now: World, t: nat, id: ObjectId, from: MintPc)
    returns (actions: seq<Action>, next: World)
    requires Run(shards, w, before) == Put(now, t, id, from) && !from.NextCounter?
    ensures Run(shards, w, actions) == next
    ensures next == Put(now, t, id, NextPc(now, Minter(Fs(id), from)))
                    .(fhToObject := NextFhToObject(now, Minter(Fs(id), from)),
                      objectToFh := NextObjectToFh(now, Minter(Fs(id), from)))
  {
    var m := Minter(Fs(id), from);
    var pc := NextPc(now, m);
    assert now.minters[t := m][t := Minter(Fs(id), pc)] == now.minters[t := Minter(Fs(id), pc)];
    next := Put(now, t, id, pc).(fhToObject := NextFhToObject(now, m), objectToFh := NextObjectToFh(now, m));
    actions := Then(shards, w, before, Put(now, t, id, from), Mint(t), next);
  }

  /** A call that finds no entry and no mark reaches its durable bytes. */
  lemma CallReads(shards: Shards, w: World, before: seq<Action>, now: World, t: nat, id: ObjectId)
    returns (actions: seq<Action>)
    requires Run(shards, w, before) == now
    requires t !in now.minters && Fs(id) !in now.objectToFh && id !in now.retired && id in now.persistent
    ensures Run(shards, w, actions) == Put(now, t, id, Reserve(now.persistent[id]))
  {
    var next: World;
    actions := Then(shards, w, before, now, StartMint(t, Fs(id)), Put(now, t, id, Lookup));
    actions, next := ThenMint(shards, w, actions, now, t, id, Lookup);
    actions, next := ThenMint(shards, w, actions, now, t, id, Check);
    actions, next := ThenMint(shards, w, actions, now, t, id, ReadEncoding);
  }

  /** It then publishes the bytes in both maps. */
  lemma CallPublishes(shards: Shards, w: World, before: seq<Action>, now: World, t: nat, id: ObjectId, fh: Fh)
    returns (actions: seq<Action>)
    requires Run(shards, w, before) == now && t in now.minters && now.minters[t] == Minter(Fs(id), Reserve(fh))
    requires now.fhToObject == map[] && now.objectToFh == map[]
    ensures Run(shards, w, actions)
         == Put(now, t, id, Recheck(fh)).(fhToObject := map[fh := Fs(id)], objectToFh := map[Fs(id) := fh])
  {
    var mid := Put(now, t, id, Enter(fh)).(fhToObject := map[fh := Fs(id)]);
    actions := Then(shards, w, before, now, Mint(t), mid);
    actions := Then(shards, w, actions, mid, Mint(t),
                    Put(now, t, id, Recheck(fh)).(fhToObject := map[fh := Fs(id)], objectToFh := map[Fs(id) := fh]));
  }

  function Swept1(now: World, ids: set<ObjectId>, pc: SweepPc, retired: set<ObjectId>): World {
    now.(retired := retired, sweepers := map[0 := Sweeper(ids, pc)])
  }

  lemma MarkOne(shards: Shards, now: World, id: ObjectId)
    requires now.retired == {}
    ensures Do(shards, Swept1(now, {id}, Marking({id}), {}), Mark(0, id)) == Swept1(now, {id}, Marking({}), {id})
  {
    var a := Swept1(now, {id}, Marking({id}), {});
    assert {id} - {id} == {} && {} + {id} == {id};
    assert NextSweepPc(shards, a, a.sweepers[0], Mark(0, id)) == Marking({});
  }

  lemma MarkingEnds(shards: Shards, now: World, id: ObjectId)
    ensures Do(shards, Swept1(now, {id}, Marking({}), {id}), Finish(0)) == Swept1(now, {id}, Collecting(0, {}), {id})
  {
  }

  lemma SweepMarks(shards: Shards, w: World, before: seq<Action>, now: World, id: ObjectId)
    returns (actions: seq<Action>)
    requires Run(shards, w, before) == now && now.sweepers == map[] && now.retired == {}
    ensures Run(shards, w, actions) == now.(retired := {id}, sweepers := map[0 := Sweeper({id}, Collecting(0, {}))])
  {
    actions := Then(shards, w, before, now, StartSweep(0, {id}), Swept1(now, {id}, Marking({id}), {}));
    MarkOne(shards, now, id);
    actions := Then(shards, w, actions, Swept1(now, {id}, Marking({id}), {}), Mark(0, id), Swept1(now, {id}, Marking({}), {id}));
    MarkingEnds(shards, now, id);
    actions := Then(shards, w, actions, Swept1(now, {id}, Marking({}), {id}), Finish(0),
                    Swept1(now, {id}, Collecting(0, {}), {id}));
  }

  /** Seeing the mark, the call removes its handle, and has its object still to remove. */
  lemma CallHalfBacksOut(shards: Shards, w: World, before: seq<Action>, now: World, t: nat, id: ObjectId, fh: Fh)
    returns (actions: seq<Action>)
    requires Run(shards, w, before) == now && t in now.minters && now.minters[t] == Minter(Fs(id), Recheck(fh))
    requires id in now.retired && now.fhToObject == map[fh := Fs(id)]
    ensures Run(shards, w, actions) == Put(now, t, id, BackOutObject(fh)).(fhToObject := map[])
  {
    actions := Then(shards, w, before, now, Mint(t), Put(now, t, id, BackOutFh(fh)));
    actions := Then(shards, w, actions, Put(now, t, id, BackOutFh(fh)), Mint(t),
                    Put(now, t, id, BackOutObject(fh)).(fhToObject := map[]));
  }

  lemma {:induction false} VisitsFindNothing(shards: Shards, w: World, before: seq<Action>, now: World,
                                             id: ObjectId, shard: nat)
    returns (actions: seq<Action>)
    requires Run(shards, w, before) == now && now.fhToObject == map[] && shard <= shards.count
    requires now.sweepers == map[0 := Sweeper({id}, Collecting(shard, {}))]
    ensures Run(shards, w, actions) == now.(sweepers := map[0 := Sweeper({id}, Removing({}))])
    decreases shards.count - shard
  {
    if shard < shards.count {
      assert StaleIn(shards, now, {id}, shard) == {};
      assert {} + StaleIn(shards, now, {id}, shard) == {};
      var next := now.(sweepers := map[0 := Sweeper({id}, Collecting(shard + 1, {}))]);
      assert NextSweepPc(shards, now, now.sweepers[0], Visit(0)) == Collecting(shard + 1, {});
      actions := Then(shards, w, before, now, Visit(0), next);
      actions := VisitsFindNothing(shards, w, actions, next, id, shard + 1);
    } else {
      actions := Then(shards, w, before, now, Visit(0), now.(sweepers := map[0 := Sweeper({id}, Removing({}))]));
    }
  }

  lemma SweepEnds(shards: Shards, w: World, before: seq<Action>, now: World, id: ObjectId)
    returns (actions: seq<Action>)
    requires Run(shards, w, before) == now && now.sweepers == map[0 := Sweeper({id}, Removing({}))]
    ensures Run(shards, w, actions)
         == now.(sweepers := map[0 := Sweeper({id}, Swept)], persistent := now.persistent - {id})
  {
    var next: World;
    actions, next := ThenSweep(shards, w, before, now, id, Removing({}), Finish(0));
    actions, next := ThenSweep(shards, w, actions, next, id, Forgetting({id}), Forget(0, id));
    assert {id} - {id} == {};
    actions, next := ThenSweep(shards, w, actions, next, id, Forgetting({}), Finish(0));
  }

  lemma ThenSweep(shards: Shards, w: World, before: seq<Action>, now: World, id: ObjectId, from: SweepPc, a: Action)
    returns (actions: seq<Action>, next: World)
    requires Run(shards, w, before) == now && now.sweepers == map[0 := Sweeper({id}, from)]
    requires a == Finish(0) || (from.Forgetting? && a == Forget(0, id) && id in from.todo)
    ensures Run(shards, w, actions) == next
    ensures next == now.(sweepers := map[0 := Sweeper({id}, NextSweepPc(shards, now, Sweeper({id}, from), a))],
                         persistent := if a.Forget? then now.persistent - {id} else now.persistent)
  {
    next := SweepStep(shards, now, 0, a);
    actions := Then(shards, w, before, now, a, next);
  }

  /** The other call takes the bytes again, finds the old entry, and returns; then the first finishes. */
  lemma CallsFinish(shards: Shards, w: World, before: seq<Action>, now: World, id: ObjectId, fh: Fh)
    returns (actions: seq<Action>)
    requires Run(shards, w, before) == now && now.fhToObject == map[] && now.objectToFh == map[Fs(id) := fh]
    requires now.minters == map[1 := Minter(Fs(id), BackOutObject(fh)), 2 := Minter(Fs(id), Reserve(fh))]
    ensures var end := Run(shards, w, actions);
            && end.fhToObject == map[fh := Fs(id)] && end.sweepers == now.sweepers
            && forall t | t in end.minters :: end.minters[t].pc.Returned?
  {
    var retaken := now.(fhToObject := map[fh := Fs(id)]);
    var next: World;
    assert Put(now, 2, id, Reserve(fh)) == now;
    actions, next := ThenMint(shards, w, before, now, 2, id, Reserve(fh));
    assert next == Put(retaken, 2, id, Enter(fh));
    actions, next := ThenMint(shards, w, actions, retaken, 2, id, Enter(fh));
    actions := FirstFinishes(shards, w, actions, next, id, fh);
  }

  lemma FirstFinishes(shards: Shards, w: World, before: seq<Action>, now: World, id: ObjectId, fh: Fh)
    returns (actions: seq<Action>)
    requires Run(shards, w, before) == now
    requires now.minters == map[1 := Minter(Fs(id), BackOutObject(fh)), 2 := Minter(Fs(id), Returned(Some(fh)))]
    ensures var end := Run(shards, w, actions);
            && end.fhToObject == now.fhToObject && end.sweepers == now.sweepers
            && forall t | t in end.minters :: end.minters[t].pc.Returned?
  {
    var end := MintStep(now, 1);
    actions := Then(shards, w, before, now, Mint(1), end);
  }

  /**
    Two calls minting one object with durable bytes, and one sweep, can leave the retired
    object resolvable after all three have finished: the second call takes the bytes again
    between the two removals of the first one's back-out, finds the first one's entry still
    in object_to_fh, and returns without reading the mark.
   */
  lemma TwoDurableMintsLeak(shards: Shards, w: World, id: ObjectId) returns (actions: seq<Action>)
    requires Start(w) && id in w.persistent
    ensures Quiet(Run(shards, w, actions)) && !AllClean(Run(shards, w, actions))
  {
    var fh := w.persistent[id];
    actions := CallReads(shards, w, [], w, 1, id);
    var a := Put(w, 1, id, Reserve(fh));
    actions := CallReads(shards, w, actions, a, 2, id);
    a := Put(a, 2, id, Reserve(fh));
    actions := CallPublishes(shards, w, actions, a, 1, id, fh);
    a := Put(a, 1, id, Recheck(fh)).(fhToObject := map[fh := Fs(id)], objectToFh := map[Fs(id) := fh]);
    actions := SweepMarks(shards, w, actions, a, id);
    a := a.(retired := {id}, sweepers := map[0 := Sweeper({id}, Collecting(0, {}))]);
    actions := CallHalfBacksOut(shards, w, actions, a, 1, id, fh);
    a := Put(a, 1, id, BackOutObject(fh)).(fhToObject := map[]);
    actions := VisitsFindNothing(shards, w, actions, a, id, 0);
    a := a.(sweepers := map[0 := Sweeper({id}, Removing({}))]);
    actions := SweepEnds(shards, w, actions, a, id);
    a := a.(sweepers := map[0 := Sweeper({id}, Swept)], persistent := a.persistent - {id});
    actions := CallsFinish(shards, w, actions, a, id, fh);
    var end := Run(shards, w, actions);
    assert fh in end.fhToObject && end.fhToObject[fh].Base() in end.sweepers[0].ids;
  }

  /** Neither map holds an entry for an object of any sweep. */
  ghost predicate AllClean(w: World) {
    forall k | k in w.sweepers ::
      && (forall fh | fh in w.fhToObject :: w.fhToObject[fh].Base() !in w.sweepers[k].ids)
      && (forall o | o in w.objectToFh :: o.Base() !in w.sweepers[k].ids)
  }

  /** Every run that ends leaves nothing retired behind, whatever is called when. */
  ghost predicate AlwaysClean(shards: Shards, w: World) {
    forall actions | Quiet(Run(shards, w, actions)) :: AllClean(Run(shards, w, actions))
  }

  /**
    For a server that starts out: unrestricted concurrent minting is safe against retirement
    if and only if the backend supplies no durable bytes.
   */
  lemma UnrestrictedMintingSafety(shards: Shards, w: World)
    requires Start(w) && shards.Valid()
    ensures AlwaysClean(shards, w) <==> w.persistent == map[]
  {
    if w.persistent == map[] {
      forall actions | Quiet(Run(shards, w, actions))
        ensures AllClean(Run(shards, w, actions))
      {
        BootScopedIsDisciplined(shards, w, actions);
        NothingRetiredSurvives(shards, w, actions);
      }
    } else {
      var id :| id in w.persistent;
      var actions := TwoDurableMintsLeak(shards, w, id);
    }
  }
}
