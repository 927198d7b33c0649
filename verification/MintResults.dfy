/**
  What a minting call returns, in every interleaving of calls and sweeps: a handle that resolves to
  its object for as long as the object is not retired, and none only for a retired object. Every
  call ends, and one that runs alone does what the sequential operation does.
 */
module MintResults {
  import opened NfsTypes
  import opened MintProtocol

  // ---- Results ----

  /** The handle the call has published, or found published and is going to return. */
  function Promised(m: Minter): Option<Fh> {
    match m.pc
    case Recheck(fh) => Some(fh)
    case Yield(_, winner) => Some(winner)
    case Returned(result) => result
    case _ => None
  }

  ghost predicate ResultOk(w: World, m: Minter) {
    && (Promised(m).Some? && m.obj.Base() !in w.retired ==> m.obj in w.objectToFh && w.objectToFh[m.obj] == Promised(m).value)
    && (m.pc == Returned(None) ==> m.obj.Base() in w.retired)
  }

  ghost predicate Results(w: World) {
    forall t | t in w.minters :: ResultOk(w, w.minters[t])
  }

  /** What is published of an object that is not retired stays published. */
  ghost predicate Stays(w: World, w': World) {
    && w.retired <= w'.retired
    && forall o | o in w.objectToFh && o.Base() !in w'.retired :: o in w'.objectToFh && w'.objectToFh[o] == w.objectToFh[o]
  }

  lemma ResultStays(w: World, w': World, m: Minter)
    requires ResultOk(w, m) && Stays(w, w')
    ensures ResultOk(w', m)
  {
  }

  lemma MintStays(w: World, t: nat)
    requires t in w.minters && Held(w)
    ensures Stays(w, MintStep(w, t))
  {
    assert HeldMinter(w, w.minters[t]);
  }

  lemma MintKeepsResult(w: World, t: nat)
    requires t in w.minters && Held(w) && ResultOk(w, w.minters[t])
    ensures ResultOk(MintStep(w, t), MintStep(w, t).minters[t])
  {
    assert HeldMinter(w, w.minters[t]);
  }

  lemma SweepStays(shards: Shards, w: World, k: nat, a: Action)
    requires k in w.sweepers && Named(w) && MarksStand(w)
    ensures Stays(w, SweepStep(shards, w, k, a))
  {
    var s := w.sweepers[k];
    if s.pc.Unnaming? {
      assert NamedSweeper(w, s) && (s.pc.fh, s.pc.obj) in Pending(s);
    }
  }

  lemma StepKeepsResults(shards: Shards, w: World, a: Action)
    requires Inv(shards, w) && Results(w)
    ensures Results(Do(shards, w, a))
  {
    var w' := Do(shards, w, a);
    if a.Mint? && a.t in w.minters {
      MintStays(w, a.t);
      MintFrame(w, a.t);
      MintKeepsResult(w, a.t);
    } else if !a.StartMint? && !a.Mint? && !a.StartSweep? && a.k in w.sweepers {
      SweepStays(shards, w, a.k, a);
    }
    forall t | t in w'.minters
      ensures ResultOk(w', w'.minters[t])
    {
      if t in w.minters && w'.minters[t] == w.minters[t] {
        ResultStays(w, w', w.minters[t]);
      }
    }
  }

  lemma {:induction false} RunKeepsResults(shards: Shards, w: World, actions: seq<Action>)
    requires Inv(shards, w) && Results(w) && shards.Valid() && Disciplined(shards, w, actions)
    ensures Inv(shards, Run(shards, w, actions)) && Results(Run(shards, w, actions))
    decreases |actions|
  {
    if actions != [] {
      StepKeepsInv(shards, w, actions[0]);
      StepKeepsResults(shards, w, actions[0]);
      RunKeepsResults(shards, Do(shards, w, actions[0]), actions[1..]);
    }
  }

  /** A published object that is not retired has its handle in the other map. */
  lemma PublishedResolves(shards: Shards, w: World, o: ServerObject)
    requires Inv(shards, w) && o in w.objectToFh && o.Base() !in w.retired
    ensures w.objectToFh[o] in w.fhToObject && w.fhToObject[w.objectToFh[o]] == o
  {
    forall t | t in w.minters && w.minters[t].obj == o
      ensures !Unpublishes(w, w.minters[t])
    {
      assert HeldMinter(w, w.minters[t]);
    }
    forall k | k in w.sweepers && w.sweepers[k].pc.Unnaming?
      ensures w.sweepers[k].pc.obj != o
    {
      var s := w.sweepers[k];
      assert NamedSweeper(w, s) && (s.pc.fh, s.pc.obj) in Pending(s);
    }
    assert PairedAt(w, o);
  }

  /** What the result of a call means in the world it is in. */
  ghost predicate ResultMeans(w: World, m: Minter)
    requires m.pc.Returned?
  {
    match m.pc.result
    case None => m.obj.Base() in w.retired
    case Some(fh) => m.obj.Base() !in w.retired ==>
                       && fh in w.fhToObject && w.fhToObject[fh] == m.obj
                       && m.obj in w.objectToFh && w.objectToFh[m.obj] == fh
  }

  lemma ResultMeansNow(shards: Shards, w: World, m: Minter)
    requires Inv(shards, w) && ResultOk(w, m) && m.pc.Returned?
    ensures ResultMeans(w, m)
  {
    if m.pc.result.Some? && m.obj.Base() !in w.retired {
      PublishedResolves(shards, w, m.obj);
    }
  }

  /**
    In every interleaving: a call that has returned a handle returned one that resolves to its object,
    then and for as long as the object is not retired; and it is the object's only handle. A call that
    returned none was for a retired object.
   */
  lemma ReturnedHandleResolves(shards: Shards, w: World, actions: seq<Action>, t: nat)
    requires Start(w) && shards.Valid() && Disciplined(shards, w, actions)
    requires var w' := Run(shards, w, actions); t in w'.minters && w'.minters[t].pc.Returned?
    ensures ResultMeans(Run(shards, w, actions), Run(shards, w, actions).minters[t])
  {
    RunKeepsResults(shards, w, actions);
    var w' := Run(shards, w, actions);
    assert ResultOk(w', w'.minters[t]);
    ResultMeansNow(shards, w', w'.minters[t]);
  }

  /** Two calls for one object that is not retired return the same handle. */
  lemma CallsAgree(shards: Shards, w: World, actions: seq<Action>, s: nat, t: nat)
    requires Start(w) && shards.Valid() && Disciplined(shards, w, actions)
    requires var w' := Run(shards, w, actions);
             && s in w'.minters && t in w'.minters && w'.minters[s].obj == w'.minters[t].obj
             && w'.minters[s].obj.Base() !in w'.retired && w'.minters[s].pc.Returned? && w'.minters[t].pc.Returned?
    ensures var w' := Run(shards, w, actions);
            w'.minters[s].pc == w'.minters[t].pc && w'.minters[s].pc.result.Some?
  {
    ReturnedHandleResolves(shards, w, actions, s);
    ReturnedHandleResolves(shards, w, actions, t);
  }

  // ---- Every call ends ----

  /** How many more operations the call makes at most. */
  function Left(pc: MintPc): nat {
    match pc
    case Lookup => 10
    case Check => 9
    case ReadEncoding => 8
    case Reserve(_) => 7
    case NextCounter => 6
    case Insert(_) => 5
    case Enter(_) => 4
    case Yield(_, _) => 1
    case Recheck(_) => 3
    case BackOutFh(_) => 2
    case BackOutObject(_) => 1
    case Returned(_) => 0
  }

  /** A call ends after at most ten operations of its own, whatever the others do. */
  lemma CallEnds(w: World, t: nat)
    requires t in w.minters
    ensures var m, m' := w.minters[t], MintStep(w, t).minters[t];
            if m.pc.Returned? then m' == m else Left(m'.pc) < Left(m.pc)
  {
  }

  // ---- A call alone ----

  function Alone(w: World, t: nat): (w': World)
    requires t in w.minters
    ensures t in w'.minters
    decreases Left(w.minters[t].pc)
  {
    if w.minters[t].pc.Returned? then w
    else
      CallEnds(w, t);
      Alone(MintStep(w, t), t)
  }

  /** The handle a new object gets: its durable bytes, if no other object has them, else the next counter. */
  function Choice(w: World, obj: ServerObject): Fh {
    if obj.Fs? && obj.id in w.persistent
       && (w.persistent[obj.id] !in w.fhToObject || w.fhToObject[w.persistent[obj.id]] == obj)
    then w.persistent[obj.id] else Boot(w.nextFh)
  }

  lemma AloneFrom(w: World, t: nat, next: World)
    requires t in w.minters && !w.minters[t].pc.Returned? && next == MintStep(w, t)
    ensures t in next.minters && Alone(w, t) == Alone(next, t)
  {
  }

  /** From the entry on, alone and not retired: the handle is published. */
  lemma AlonePublishes(w: World, t: nat, fh: Fh)
    requires t in w.minters && w.minters[t].pc == Enter(fh)
    requires w.minters[t].obj !in w.objectToFh && w.minters[t].obj.Base() !in w.retired
    ensures var obj, w' := w.minters[t].obj, Alone(w, t);
            && w'.minters[t] == Minter(obj, Returned(Some(fh))) && w'.fhToObject == w.fhToObject
            && w'.objectToFh == w.objectToFh[obj := fh]
  {
    var w1 := MintStep(w, t);
    var w2 := MintStep(w1, t);
    AloneFrom(w, t, w1);
    AloneFrom(w1, t, w2);
  }

  /** With a boot-scoped handle. */
  lemma AloneCounts(w: World, t: nat)
    requires t in w.minters && w.minters[t].pc == NextCounter
    requires w.minters[t].obj !in w.objectToFh && w.minters[t].obj.Base() !in w.retired
    ensures var obj, fh, w' := w.minters[t].obj, Boot(w.nextFh), Alone(w, t);
            && w'.minters[t] == Minter(obj, Returned(Some(fh))) && w'.fhToObject == w.fhToObject[fh := obj]
            && w'.objectToFh == w.objectToFh[obj := fh]
  {
    var w1 := MintStep(w, t);
    var w2 := MintStep(w1, t);
    AloneFrom(w, t, w1);
    AloneFrom(w1, t, w2);
    AlonePublishes(w2, t, Boot(w.nextFh));
  }

  /** With the encoding still to be read. */
  lemma AloneChooses(w: World, t: nat)
    requires t in w.minters && w.minters[t].pc == ReadEncoding
    requires w.minters[t].obj !in w.objectToFh && w.minters[t].obj.Base() !in w.retired
    ensures var obj, w' := w.minters[t].obj, Alone(w, t);
            var fh := Choice(w, obj);
            && w'.minters[t] == Minter(obj, Returned(Some(fh))) && w'.fhToObject == w.fhToObject[fh := obj]
            && w'.objectToFh == w.objectToFh[obj := fh]
  {
    var obj := w.minters[t].obj;
    var w1 := MintStep(w, t);
    AloneFrom(w, t, w1);
    if obj.Fs? && obj.id in w.persistent {
      var w2 := MintStep(w1, t);
      AloneFrom(w1, t, w2);
      if Choice(w, obj) == w.persistent[obj.id] && w2.minters[t].pc.Enter? {
        AlonePublishes(w2, t, w.persistent[obj.id]);
        assert w.fhToObject[w.persistent[obj.id] := obj] == w2.fhToObject;
      } else {
        AloneCounts(w2, t);
      }
    } else {
      AloneCounts(w1, t);
    }
  }

  /**
    A call that runs alone returns the handle its object has; none, without a trace, if the object is
    retired; and otherwise a new handle that both maps then hold.
   */
  lemma AloneIsSequential(w: World, t: nat)
    requires t in w.minters && w.minters[t].pc.Lookup?
    ensures var obj, w' := w.minters[t].obj, Alone(w, t);
            if obj in w.objectToFh then
              w'.minters[t].pc == Returned(Some(w.objectToFh[obj])) && w'.fhToObject == w.fhToObject && w'.objectToFh == w.objectToFh
            else if obj.Base() in w.retired then
              w'.minters[t].pc == Returned(None) && w'.fhToObject == w.fhToObject && w'.objectToFh == w.objectToFh
            else
              var fh := Choice(w, obj);
              && w'.minters[t].pc == Returned(Some(fh))
              && w'.fhToObject == w.fhToObject[fh := obj] && w'.objectToFh == w.objectToFh[obj := fh]
  {
    var obj := w.minters[t].obj;
    var w1 := MintStep(w, t);
    AloneFrom(w, t, w1);
    if obj !in w.objectToFh {
      var w2 := MintStep(w1, t);
      AloneFrom(w1, t, w2);
      if obj.Base() !in w.retired {
        AloneChooses(w2, t);
      }
    }
  }
}
