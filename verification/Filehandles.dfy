/** Filehandles as bytes: the two layouts, minting and resolving, one call at a time. */
module Filehandles {
  import opened NfsTypes
  import opened Xdr

  const FH_NONCE_LEN: nat := 8
  const FH_LEN: nat := 16
  const PERSISTENT_FH_TAG: byte := 0xA5
  const MAX_PERSISTENT_HANDLE_LEN: nat := 127

  // ---- Layouts ----

  function BootFh(nonce: Bytes, counter: nat): Bytes {
    nonce + BigEndian(counter, 8)
  }

  function PersistentFh(encoded: Bytes): Bytes {
    [PERSISTENT_FH_TAG] + encoded
  }

  /** The backend's encoding, if the bytes have the persistent layout. */
  function PersistentBody(fh: Bytes): (body: Option<Bytes>)
    ensures body.Some? ==> fh == PersistentFh(body.value)
  {
    if |fh| > 1 && fh[0] == PERSISTENT_FH_TAG && |fh| - 1 <= MAX_PERSISTENT_HANDLE_LEN then Some(fh[1..]) else None
  }

  ghost predicate NonceOk(nonce: Bytes) {
    |nonce| == FH_NONCE_LEN && nonce[0] != PERSISTENT_FH_TAG
  }

  /** The layouts share no bytes, and no two counters share a handle. */
  lemma LayoutsDisjoint(nonce: Bytes, counter: nat, other: nat)
    requires NonceOk(nonce) && counter <= U64_MAX && other <= U64_MAX
    ensures PersistentBody(BootFh(nonce, counter)) == None && |BootFh(nonce, counter)| == FH_LEN
    ensures BootFh(nonce, counter) == BootFh(nonce, other) <==> counter == other
  {
    assert BootFh(nonce, counter)[0] == nonce[0];
    assert BootFh(nonce, counter)[8..] == BigEndian(counter, 8) && BootFh(nonce, other)[8..] == BigEndian(other, 8);
    Pow256Long();
    BigEndianTrip(counter, 8);
    BigEndianTrip(other, 8);
  }

  lemma Pow256Long()
    ensures Pow256(8) == U64_MAX + 1
  {
  }

  // ---- The maps ----

  /** `ever` and `recorded` are histories, of every handle that resolved and every encoding; no operation reads them. */
  datatype Maps = Maps(
    nonce: Bytes,
    fhToObject: map<Bytes, ServerObject>,
    objectToFh: map<ServerObject, Bytes>,
    persistent: map<ObjectId, Bytes>,
    retired: set<ObjectId>,
    next: nat,
    ever: map<Bytes, ServerObject>,
    recorded: map<ObjectId, Bytes>)

  /** Bytes that are neither persistent nor of this boot are refused before the map is read. */
  function Lookup(m: Maps, fh: Bytes): Option<ServerObject> {
    if PersistentBody(fh).None? && (|fh| != FH_LEN || fh[..FH_NONCE_LEN] != m.nonce) then None
    else if fh in m.fhToObject then Some(m.fhToObject[fh])
    else None
  }

  predicate Usable(encoded: Bytes) {
    encoded != [] && |encoded| <= MAX_PERSISTENT_HANDLE_LEN
  }

  /** The backend's encoding of a newly registered object; an empty or long one is no encoding. */
  function Record(m: Maps, id: ObjectId, encoded: Bytes): Maps {
    if !Usable(encoded) || id in m.recorded then m
    else m.(persistent := m.persistent[id := PersistentFh(encoded)], recorded := m.recorded[id := PersistentFh(encoded)])
  }

  /** The object has an encoding, and no other object holds those bytes. */
  predicate MayClaim(m: Maps, obj: ServerObject) {
    && obj.Fs? && obj.id in m.persistent
    && (m.persistent[obj.id] !in m.fhToObject || m.fhToObject[m.persistent[obj.id]] == obj)
  }

  /** The handle a new object gets: its encoding where it may have it, else the next counter. */
  function Choice(m: Maps, obj: ServerObject): Bytes {
    if MayClaim(m, obj) then m.persistent[obj.id] else BootFh(m.nonce, m.next)
  }

  function Publish(m: Maps, obj: ServerObject, fh: Bytes): Maps {
    m.(fhToObject := m.fhToObject[fh := obj], objectToFh := m.objectToFh[obj := fh], ever := m.ever[fh := obj],
       next := if fh == BootFh(m.nonce, m.next) then m.next + 1 else m.next)
  }

  function Mint(m: Maps, obj: ServerObject): (Option<Bytes>, Maps) {
    if obj in m.objectToFh then (Some(m.objectToFh[obj]), m)
    else if obj.Base() in m.retired then (None, m)
    else (Some(Choice(m, obj)), Publish(m, obj, Choice(m, obj)))
  }

  /** Mark, then drop both mappings of every object that belongs to ids, and the encodings. */
  function Sweep(m: Maps, ids: set<ObjectId>): Maps {
    m.(retired := m.retired + ids,
       fhToObject := map fh | fh in m.fhToObject && m.fhToObject[fh].Base() !in ids :: m.fhToObject[fh],
       objectToFh := map o | o in m.objectToFh && o.Base() !in ids :: m.objectToFh[o],
       persistent := m.persistent - ids)
  }

  // ---- The invariant ----

  /** Every handle in use has one of the two layouts. */
  ghost predicate Formed(m: Maps, fh: Bytes, obj: ServerObject) {
    || (exists c: nat :: c < m.next && c <= U64_MAX && fh == BootFh(m.nonce, c))
    || (obj.Fs? && obj.id in m.recorded && m.recorded[obj.id] == fh)
  }

  ghost predicate Inverse(m: Maps) {
    && (forall fh | fh in m.fhToObject :: m.fhToObject[fh] in m.objectToFh && m.objectToFh[m.fhToObject[fh]] == fh)
    && (forall o | o in m.objectToFh :: m.objectToFh[o] in m.fhToObject && m.fhToObject[m.objectToFh[o]] == o)
  }

  ghost predicate Inv(m: Maps) {
    && NonceOk(m.nonce)
    && Inverse(m)
    && (forall fh | fh in m.fhToObject :: fh in m.ever && m.ever[fh] == m.fhToObject[fh])
    && (forall fh | fh in m.ever :: Formed(m, fh, m.ever[fh]))
    && (forall id | id in m.persistent :: id in m.recorded && m.recorded[id] == m.persistent[id])
    && (forall id | id in m.recorded :: PersistentBody(m.recorded[id]).Some?)
  }

  /** Every mapped handle passes the layout check, so resolving is exactly the map. */
  lemma LookupIsMap(m: Maps, fh: Bytes)
    requires Inv(m)
    ensures Lookup(m, fh) == if fh in m.fhToObject then Some(m.fhToObject[fh]) else None
  {
    if fh in m.fhToObject {
      assert Formed(m, fh, m.ever[fh]);
      if c: nat :| c < m.next && c <= U64_MAX && fh == BootFh(m.nonce, c) {
        assert fh[..FH_NONCE_LEN] == m.nonce;
      }
    }
  }

  ghost predicate SameEncoding(m: Maps, a: ServerObject, b: ServerObject) {
    a.Fs? && b.Fs? && a.id in m.recorded && b.id in m.recorded && m.recorded[a.id] == m.recorded[b.id]
  }

  /** A new handle is free, and if its bytes were used before it was under the same encoding. */
  lemma ChoiceFresh(m: Maps, obj: ServerObject)
    requires Inv(m) && obj !in m.objectToFh && m.next <= U64_MAX
    ensures Choice(m, obj) !in m.fhToObject
    ensures Choice(m, obj) in m.ever ==> SameEncoding(m, m.ever[Choice(m, obj)], obj)
  {
    var fh := Choice(m, obj);
    if fh == BootFh(m.nonce, m.next) {
      BootIsNew(m);
      if obj.Fs? && obj.id in m.persistent {
        LayoutsDisjoint(m.nonce, m.next, m.next);
        assert PersistentBody(m.recorded[obj.id]).Some?;
      }
    } else if fh in m.ever {
      assert Formed(m, fh, m.ever[fh]);
      assert PersistentBody(m.recorded[obj.id]).Some?;
      if c: nat :| c < m.next && c <= U64_MAX && fh == BootFh(m.nonce, c) {
        LayoutsDisjoint(m.nonce, c, c);
        assert false;
      }
    }
  }

  /** The next counter's handle has never been used. */
  lemma BootIsNew(m: Maps)
    requires Inv(m) && m.next <= U64_MAX
    ensures BootFh(m.nonce, m.next) !in m.ever
  {
    var fh := BootFh(m.nonce, m.next);
    LayoutsDisjoint(m.nonce, m.next, m.next);
    if fh in m.ever {
      assert Formed(m, fh, m.ever[fh]);
      if c: nat :| c < m.next && c <= U64_MAX && fh == BootFh(m.nonce, c) {
        LayoutsDisjoint(m.nonce, m.next, c);
        assert false;
      }
    }
  }

  lemma PublishKeepsForm(m: Maps, obj: ServerObject, fh: Bytes)
    requires Inv(m) && m.next <= U64_MAX && obj !in m.objectToFh && fh == Choice(m, obj)
    ensures var m' := Publish(m, obj, fh); forall f | f in m'.ever :: Formed(m', f, m'.ever[f])
  {
    var m' := Publish(m, obj, fh);
    forall f | f in m'.ever
      ensures Formed(m', f, m'.ever[f])
    {
      if f == fh {
        assert f == BootFh(m.nonce, m.next) || m.recorded[obj.id] == f;
      } else {
        assert Formed(m, f, m.ever[f]);
      }
    }
  }

  lemma PublishKeeps(m: Maps, obj: ServerObject, fh: Bytes)
    requires Inv(m) && m.next <= U64_MAX && obj !in m.objectToFh && fh == Choice(m, obj)
    ensures Inv(Publish(m, obj, fh))
  {
    ChoiceFresh(m, obj);
    PublishKeepsForm(m, obj, fh);
  }

  /** A minted handle resolves to its object; none is minted exactly for a retired object that has none. */
  lemma MintKeeps(m: Maps, obj: ServerObject)
    requires Inv(m) && m.next <= U64_MAX
    ensures Inv(Mint(m, obj).1)
    ensures var (fh, m') := Mint(m, obj);
            if fh.Some? then Lookup(m', fh.value) == Some(obj) && obj in m'.objectToFh && m'.objectToFh[obj] == fh.value
            else obj !in m.objectToFh && obj.Base() in m.retired && m' == m
  {
    if obj in m.objectToFh {
      LookupIsMap(m, m.objectToFh[obj]);
    } else if obj.Base() !in m.retired {
      var fh := Choice(m, obj);
      PublishKeeps(m, obj, fh);
      LookupIsMap(Publish(m, obj, fh), fh);
    }
  }

  lemma RecordKeeps(m: Maps, id: ObjectId, encoded: Bytes)
    requires Inv(m)
    ensures Inv(Record(m, id, encoded))
  {
    var m' := Record(m, id, encoded);
    if m' != m {
      assert PersistentFh(encoded)[1..] == encoded;
      forall f | f in m'.ever
        ensures Formed(m', f, m'.ever[f])
      {
        assert Formed(m, f, m.ever[f]);
      }
    }
  }

  lemma SweepKeeps(m: Maps, ids: set<ObjectId>)
    requires Inv(m)
    ensures Inv(Sweep(m, ids))
  {
    var m' := Sweep(m, ids);
    forall f | f in m'.ever
      ensures Formed(m', f, m'.ever[f])
    {
      assert Formed(m, f, m.ever[f]);
    }
  }

  // ---- What each operation answers ----

  /** The encoding of an object is recorded exactly if it is the first and has 1 to 127 bytes; nothing else changes. */
  lemma RecordsIff(m: Maps, id: ObjectId, encoded: Bytes)
    ensures var m' := Record(m, id, encoded);
            if 1 <= |encoded| <= 127 && id !in m.recorded
            then m'.persistent == m.persistent[id := [0xA5] + encoded] && m' == m.(persistent := m'.persistent, recorded := m'.recorded)
            else m' == m
  {
  }

  /** Bytes that start with the tag and have a body of 1 to 127 bytes are durable handles, and no others. */
  lemma PersistentBodyIff(fh: Bytes, body: Bytes)
    ensures PersistentBody(fh) == Some(body) <==> fh == [0xA5] + body && 1 <= |body| <= 127
  {
    if fh == [0xA5] + body {
      assert fh[1..] == body;
    }
  }

  /**
    An object that has a handle keeps it. Another gets one unless it is retired: its recorded encoding,
    if no other object holds those bytes, and otherwise the boot prefix and the next counter.
   */
  lemma MintAnswers(m: Maps, obj: ServerObject)
    requires Inv(m) && m.next <= U64_MAX
    ensures var (fh, m') := Mint(m, obj);
            var own := obj.Fs? && obj.id in m.persistent && Lookup(m, m.persistent[obj.id]) in {None, Some(obj)};
            if obj in m.objectToFh then fh == Some(m.objectToFh[obj]) && m' == m
            else if obj.Base() in m.retired then fh == None && m' == m
            else && fh == Some(if own then m.persistent[obj.id] else m.nonce + BigEndian(m.next, 8))
                 && m'.objectToFh == m.objectToFh[obj := fh.value] && m'.fhToObject == m.fhToObject[fh.value := obj]
                 && fh.value !in m.fhToObject && m'.persistent == m.persistent && m'.retired == m.retired
                 && m'.next == if own then m.next else m.next + 1
  {
    if obj !in m.objectToFh && obj.Base() !in m.retired {
      ChoiceFresh(m, obj);
      if obj.Fs? && obj.id in m.persistent {
        LookupIsMap(m, m.persistent[obj.id]);
        assert PersistentBody(m.recorded[obj.id]).Some?;
        LayoutsDisjoint(m.nonce, m.next, m.next);
      }
    }
  }

  /** A sweep takes out exactly the handles of its objects, and marks exactly them. */
  lemma SweepsExactly(m: Maps, ids: set<ObjectId>, fh: Bytes, obj: ServerObject)
    requires Inv(m)
    ensures var m' := Sweep(m, ids);
            && Lookup(m', fh) == (if Lookup(m, fh).Some? && Lookup(m, fh).value.Base() in ids then None else Lookup(m, fh))
            && (obj in m'.objectToFh <==> obj in m.objectToFh && obj.Base() !in ids)
            && (obj in m'.objectToFh ==> m'.objectToFh[obj] == m.objectToFh[obj])
            && m'.retired == m.retired + ids && m'.next == m.next && m'.persistent == m.persistent - ids
  {
    SweepKeeps(m, ids);
    LookupIsMap(m, fh);
    LookupIsMap(Sweep(m, ids), fh);
  }

  // ---- Steps and runs ----

  datatype Action =
    | Recording(id: ObjectId, encoded: Bytes)
    | Minting(obj: ServerObject)
    | Sweeping(ids: set<ObjectId>)

  /** Minting stops where the 64-bit counter would wrap. */
  function Step(m: Maps, a: Action): Maps {
    match a
    case Recording(id, encoded) => Record(m, id, encoded)
    case Minting(obj) => if m.next <= U64_MAX then Mint(m, obj).1 else m
    case Sweeping(ids) => Sweep(m, ids)
  }

  function Run(m: Maps, actions: seq<Action>): Maps
    decreases |actions|
  {
    if actions == [] then m else Run(Step(m, actions[0]), actions[1..])
  }

  lemma StepKeepsInv(m: Maps, a: Action)
    requires Inv(m)
    ensures Inv(Step(m, a))
  {
    match a
    case Recording(id, encoded) => RecordKeeps(m, id, encoded);
    case Minting(obj) =>
      if m.next <= U64_MAX {
        MintKeeps(m, obj);
      }
    case Sweeping(ids) => SweepKeeps(m, ids);
  }

  /** In every run the two maps are inverse and every handle has its layout. */
  lemma {:induction false} RunKeepsInv(m: Maps, actions: seq<Action>)
    requires Inv(m)
    ensures Inv(Run(m, actions))
    decreases |actions|
  {
    if actions != [] {
      StepKeepsInv(m, actions[0]);
      RunKeepsInv(Step(m, actions[0]), actions[1..]);
    }
  }

  // ---- Bytes keep their meaning ----

  /** No two objects were ever given the same encoding. */
  ghost predicate Injective(m: Maps) {
    forall a, b | a in m.recorded && b in m.recorded && m.recorded[a] == m.recorded[b] :: a == b
  }

  lemma StepKeepsMeaning(m: Maps, a: Action, fh: Bytes)
    requires Inv(m) && Injective(m) && fh in m.ever
    ensures fh in Step(m, a).ever && Step(m, a).ever[fh] == m.ever[fh]
  {
    if a.Minting? && m.next <= U64_MAX && a.obj !in m.objectToFh {
      ChoiceFresh(m, a.obj);
    }
  }

  lemma StepRecords(m: Maps, a: Action)
    ensures forall id | id in m.recorded :: id in Step(m, a).recorded && Step(m, a).recorded[id] == m.recorded[id]
  {
  }

  lemma {:induction false} RunRecords(m: Maps, actions: seq<Action>)
    ensures forall id | id in m.recorded :: id in Run(m, actions).recorded && Run(m, actions).recorded[id] == m.recorded[id]
    decreases |actions|
  {
    if actions != [] {
      StepRecords(m, actions[0]);
      RunRecords(Step(m, actions[0]), actions[1..]);
    }
  }

  /**
    Under an encoding that never gives two objects the same bytes, bytes that once resolved to an
    object resolve in every later state of this boot to that object or to nothing.
   */
  lemma {:induction false} BytesKeepMeaning(m: Maps, actions: seq<Action>, fh: Bytes)
    requires Inv(m) && Injective(Run(m, actions)) && fh in m.ever
    ensures fh in Run(m, actions).ever && Run(m, actions).ever[fh] == m.ever[fh]
    ensures Lookup(Run(m, actions), fh) in {None, Some(m.ever[fh])}
    decreases |actions|
  {
    if actions == [] {
      LookupIsMap(m, fh);
    } else {
      var m' := Step(m, actions[0]);
      RunRecords(m', actions[1..]);
      StepRecords(m, actions[0]);
      assert Injective(m);
      StepKeepsInv(m, actions[0]);
      StepKeepsMeaning(m, actions[0], fh);
      BytesKeepMeaning(m', actions[1..], fh);
    }
  }

  function EmptyMaps(nonce: Bytes): Maps {
    Maps(nonce, map[], map[], map[], {}, 1, map[], map[])
  }

  /** Two objects with one encoding: once the first is swept, its bytes name the second. */
  lemma SharedEncodingChangesMeaning(nonce: Bytes, encoded: Bytes, a: ObjectId, b: ObjectId)
    requires NonceOk(nonce) && Usable(encoded) && a != b
    ensures var before := Run(EmptyMaps(nonce), [Recording(a, encoded), Recording(b, encoded), Minting(Fs(a))]);
            var after := Run(before, [Sweeping({a}), Minting(Fs(b))]);
            Lookup(before, PersistentFh(encoded)) == Some(Fs(a)) && Lookup(after, PersistentFh(encoded)) == Some(Fs(b))
  {
    var start := EmptyMaps(nonce);
    var acts: seq<Action> := [Recording(a, encoded), Recording(b, encoded), Minting(Fs(a))];
    var fh := PersistentFh(encoded);
    var m2 := Record(Record(start, a, encoded), b, encoded);
    var m3 := Step(m2, Minting(Fs(a)));
    assert fh[1..] == encoded;
    LayoutsDisjoint(nonce, 1, 1);
    assert fh != BootFh(nonce, 1);
    assert Choice(m2, Fs(a)) == fh && m3.fhToObject == map[fh := Fs(a)];
    var m1 := Record(start, a, encoded);
    assert acts[1..][1..] == acts[2..] && acts[2..][1..] == [];
    assert Run(m2, acts[2..]) == m3;
    assert Run(m1, acts[1..]) == m3;
    assert Run(start, acts) == m3;
    var more: seq<Action> := [Sweeping({a}), Minting(Fs(b))];
    var m4 := Step(m3, more[0]);
    assert m4.fhToObject == map[];
    assert Choice(m4, Fs(b)) == fh;
    var m5 := Step(m4, more[1]);
    assert more[1..][1..] == [];
    assert Run(m4, more[1..]) == m5;
    assert Run(m3, more) == m5;
  }

  // ---- Which backend encodings keep it ----

  /** Every encoding recorded is the backend's. */
  ghost predicate Follows(actions: seq<Action>, enc: ObjectId -> Bytes) {
    forall i | 0 <= i < |actions| :: actions[i].Recording? ==> actions[i].encoded == enc(actions[i].id)
  }

  /** Encodings that the server can use differ from object to object. */
  ghost predicate EncodesApart(enc: ObjectId -> Bytes) {
    forall a: ObjectId, b: ObjectId :: Usable(enc(a)) && enc(a) == enc(b) ==> a == b
  }

  /** In every run of a boot, bytes that resolve to an object resolve later to that object or to nothing. */
  ghost predicate MeaningKept(nonce: Bytes, enc: ObjectId -> Bytes) {
    forall before, after, fh | Follows(before, enc) && Follows(after, enc) :: StillMeans(nonce, before, after, fh)
  }

  predicate StillMeans(nonce: Bytes, before: seq<Action>, after: seq<Action>, fh: Bytes) {
    var first := Run(EmptyMaps(nonce), before);
    var was, later := Lookup(first, fh), Lookup(Run(first, after), fh);
    was.Some? ==> later == None || later == was
  }

  ghost predicate RecordedBy(m: Maps, enc: ObjectId -> Bytes) {
    forall id | id in m.recorded :: Usable(enc(id)) && m.recorded[id] == PersistentFh(enc(id))
  }

  lemma {:induction false} RunRecordedBy(m: Maps, actions: seq<Action>, enc: ObjectId -> Bytes)
    requires RecordedBy(m, enc) && Follows(actions, enc)
    ensures RecordedBy(Run(m, actions), enc)
    decreases |actions|
  {
    if actions != [] {
      assert actions[0].Recording? ==> actions[0].encoded == enc(actions[0].id);
      RunRecordedBy(Step(m, actions[0]), actions[1..], enc);
    }
  }

  lemma ApartIsInjective(m: Maps, enc: ObjectId -> Bytes)
    requires RecordedBy(m, enc) && EncodesApart(enc)
    ensures Injective(m)
  {
    forall a, b | a in m.recorded && b in m.recorded && m.recorded[a] == m.recorded[b]
      ensures a == b
    {
      assert PersistentFh(enc(a))[1..] == enc(a) && PersistentFh(enc(b))[1..] == enc(b);
    }
  }

  /** Bytes keep their meaning in every run of a boot if and only if the backend encodes no two objects alike. */
  lemma MeaningKeptIff(nonce: Bytes, enc: ObjectId -> Bytes)
    requires NonceOk(nonce)
    ensures MeaningKept(nonce, enc) <==> EncodesApart(enc)
  {
    if EncodesApart(enc) {
      forall before, after, fh | Follows(before, enc) && Follows(after, enc)
        ensures StillMeans(nonce, before, after, fh)
      {
        ApartKeepsMeaning(nonce, enc, before, after, fh);
      }
    } else {
      var a: ObjectId, b: ObjectId :| Usable(enc(a)) && enc(a) == enc(b) && a != b;
      SharedEncodingChangesMeaning(nonce, enc(a), a, b);
      var before: seq<Action> := [Recording(a, enc(a)), Recording(b, enc(a)), Minting(Fs(a))];
      var after: seq<Action> := [Sweeping({a}), Minting(Fs(b))];
      assert Follows(before, enc) && Follows(after, enc);
      assert !StillMeans(nonce, before, after, PersistentFh(enc(a)));
    }
  }

  lemma ApartKeepsMeaning(nonce: Bytes, enc: ObjectId -> Bytes, before: seq<Action>, after: seq<Action>, fh: Bytes)
    requires NonceOk(nonce) && EncodesApart(enc) && Follows(before, enc) && Follows(after, enc)
    ensures StillMeans(nonce, before, after, fh)
  {
    var first := Run(EmptyMaps(nonce), before);
    RunKeepsInv(EmptyMaps(nonce), before);
    RunRecordedBy(EmptyMaps(nonce), before, enc);
    RunRecordedBy(first, after, enc);
    ApartIsInjective(Run(first, after), enc);
    LookupIsMap(first, fh);
    if fh in first.fhToObject {
      BytesKeepMeaning(first, after, fh);
    }
  }

  // ---- The maps as the server keeps them ----

  class FilehandleTable {
    const nonce: Bytes
    var fhToObject: map<Bytes, ServerObject>
    var objectToFh: map<ServerObject, Bytes>
    var persistent: map<ObjectId, Bytes>
    var retired: set<ObjectId>
    var next: nat
    ghost var ever: map<Bytes, ServerObject>
    ghost var recorded: map<ObjectId, Bytes>

    ghost function State(): Maps
      reads this
    {
      Maps(nonce, fhToObject, objectToFh, persistent, retired, next, ever, recorded)
    }

    /** A random prefix for this boot; its first byte is kept away from the tag. */
    constructor (random: Bytes)
      requires |random| == FH_NONCE_LEN
      ensures Inv(State()) && fhToObject == map[] && objectToFh == map[] && retired == {} && next == 1
    {
      nonce := if random[0] == PERSISTENT_FH_TAG then random[0 := PERSISTENT_FH_TAG - 1] else random;
      fhToObject, objectToFh, persistent, retired, next := map[], map[], map[], {}, 1;
      ever, recorded := map[], map[];
    }

    method RecordPersistentFh(id: ObjectId, encoded: Bytes)
      requires Inv(State()) && id !in recorded && Usable(encoded)
      modifies this
      ensures Inv(State()) && State() == Record(old(State()), id, encoded)
    {
      RecordKeeps(State(), id, encoded);
      persistent := persistent[id := PersistentFh(encoded)];
      recorded := recorded[id := PersistentFh(encoded)];
    }

    /** Takes the object's durable bytes, if it has any and no other object holds them. */
    method ClaimPersistentFh(obj: ServerObject) returns (claimed: Option<Bytes>)
      modifies this`fhToObject
      ensures claimed == if MayClaim(old(State()), obj) then Some(persistent[obj.id]) else None
      ensures fhToObject == if claimed.Some? then old(fhToObject)[claimed.value := obj] else old(fhToObject)
    {
      if !obj.Fs? || obj.id !in persistent {
        return None;
      }
      var fh := persistent[obj.id];
      if fh in fhToObject {
        return if fhToObject[fh] != obj then None else Some(fh);
      }
      fhToObject := fhToObject[fh := obj];
      return Some(fh);
    }

    /** Takes the object's entry, or gives way to the handle that is already there. */
    method TakeEntry(obj: ServerObject, fh: Bytes) returns (winner: Option<Bytes>)
      modifies this`fhToObject, this`objectToFh
      ensures obj !in old(objectToFh) ==>
                winner == None && objectToFh == old(objectToFh)[obj := fh] && fhToObject == old(fhToObject)
      ensures obj in old(objectToFh) ==>
                && winner == Some(old(objectToFh)[obj]) && objectToFh == old(objectToFh)
                && fhToObject == if winner != Some(fh) && fh in old(fhToObject) && old(fhToObject)[fh] == obj
                                 then old(fhToObject) - {fh} else old(fhToObject)
    {
      if obj in objectToFh {
        winner := Some(objectToFh[obj]);
        if winner != Some(fh) && fh in fhToObject && fhToObject[fh] == obj {
          fhToObject := fhToObject - {fh};
        }
        return;
      }
      objectToFh := objectToFh[obj := fh];
      return None;
    }

    /** Reads the mark again once the handle is published, and backs out if the object was retired meanwhile. */
    method Validate(obj: ServerObject, fh: Bytes) returns (ok: bool)
      modifies this`fhToObject, this`objectToFh
      ensures ok == (obj.Base() !in retired)
      ensures ok ==> fhToObject == old(fhToObject) && objectToFh == old(objectToFh)
      ensures !ok ==> fhToObject == old(fhToObject) - {fh} && objectToFh == old(objectToFh) - {obj}
    {
      if obj.Base() in retired {
        fhToObject := fhToObject - {fh};
        objectToFh := objectToFh - {obj};
        return false;
      }
      return true;
    }

    /** The bytes for a new handle, already in the map by handle. */
    method NewFh(obj: ServerObject) returns (fh: Bytes)
      requires BootOnlyIfNeeded(State(), obj)
      modifies this`fhToObject, this`next
      ensures fh == Choice(old(State()), obj) && fhToObject == old(fhToObject)[fh := obj]
      ensures next == if fh == BootFh(nonce, old(next)) then old(next) + 1 else old(next)
    {
      var claimed := ClaimPersistentFh(obj);
      if claimed.Some? {
        return claimed.value;
      }
      fh := BootFh(nonce, next);
      next := next + 1;
      fhToObject := fhToObject[fh := obj];
    }

    /** Mint or reuse: with no other call under way the entry is vacant and the second look at the mark finds what the first did. */
    method ObjectToFh(obj: ServerObject) returns (r: Option<Bytes>)
      requires Inv(State()) && next <= U64_MAX
      modifies this
      ensures Inv(State()) && (r, State()) == Mint(old(State()), obj)
    {
      ghost var m := State();
      ChoiceIsBoot(m, obj);
      r := MintOrReuse(obj);
      MintKeeps(m, obj);
    }

    method MintOrReuse(obj: ServerObject) returns (r: Option<Bytes>)
      requires BootOnlyIfNeeded(State(), obj)
      modifies this
      ensures (r, State()) == Mint(old(State()), obj)
    {
      if obj in objectToFh {
        return Some(objectToFh[obj]);
      }
      if obj.Base() in retired {
        return None;
      }
      var fh := NewFh(obj);
      var winner := TakeEntry(obj, fh);
      ever := ever[fh := obj];
      if winner.Some? {
        return winner;
      }
      var ok := Validate(obj, fh);
      return if ok then Some(fh) else None;
    }

    method FhToObject(fh: Bytes) returns (r: Option<ServerObject>)
      requires Inv(State())
      ensures r == if fh in fhToObject then Some(fhToObject[fh]) else None
    {
      LookupIsMap(State(), fh);
      if PersistentBody(fh).None? && (|fh| != FH_LEN || fh[..FH_NONCE_LEN] != nonce) {
        return None;
      }
      return if fh in fhToObject then Some(fhToObject[fh]) else None;
    }

    /** Removes collected handles one by one, each with its object's entry. */
    method RemoveStale(stale: set<Bytes>) returns (dropped: nat)
      requires stale <= fhToObject.Keys
      modifies this`fhToObject, this`objectToFh
      ensures fhToObject == old(fhToObject) - stale && dropped == |stale|
      ensures objectToFh == old(objectToFh) - (set fh | fh in stale :: old(fhToObject)[fh])
    {
      ghost var was := objectToFh;
      var objects := fhToObject;
      dropped := 0;
      var left := stale;
      while left != {}
        invariant left <= stale && dropped == |stale| - |left|
        invariant fhToObject == objects - (stale - left)
        invariant objectToFh == was - (set fh | fh in stale - left :: objects[fh])
        decreases left
      {
        var fh :| fh in left;
        left := left - {fh};
        fhToObject := fhToObject - {fh};
        objectToFh := objectToFh - {objects[fh]};
        dropped := dropped + 1;
        assert stale - left == (stale - (left + {fh})) + {fh};
      }
    }

    /** The filehandle part of a retirement: mark, collect, then remove handle by handle. */
    method InvalidateObjects(ids: set<ObjectId>) returns (dropped: nat)
      requires Inv(State())
      modifies this
      ensures Inv(State()) && State() == Sweep(old(State()), ids)
      ensures dropped == |set fh | fh in old(fhToObject) && old(fhToObject)[fh].Base() in ids|
    {
      ghost var m := State();
      dropped := MarkAndSweep(ids);
      SweepKeeps(m, ids);
    }

    method MarkAndSweep(ids: set<ObjectId>) returns (dropped: nat)
      requires Inverse(State())
      modifies this
      ensures State() == Sweep(old(State()), ids)
      ensures dropped == |set fh | fh in old(fhToObject) && old(fhToObject)[fh].Base() in ids|
    {
      ghost var m := State();
      retired := retired + ids;
      var stale := set fh | fh in fhToObject && fhToObject[fh].Base() in ids;
      dropped := RemoveStale(stale);
      SweptMaps(m, ids, stale);
      persistent := persistent - ids;
    }

    /**
      A handle this boot has not seen goes through the backend's decoder, which names an object
      or fails; the bytes must be exactly those the object is given now.
     */
    method ResolveObject(fh: Bytes, decoded: Result<ObjectId>) returns (r: Result<ServerObject>)
      requires Inv(State()) && next <= U64_MAX
      modifies this
      ensures Inv(State())
      ensures r.Success? ==> r.value in objectToFh && objectToFh[r.value] == fh && Lookup(State(), fh) == Some(r.value)
      ensures fh in old(fhToObject) ==> r == Success(old(fhToObject)[fh]) && State() == old(State())
      ensures r.Success? && fh !in old(fhToObject) ==> decoded.Success? && r.value == Fs(decoded.value) && PersistentBody(fh).Some?
      ensures r.Failure? && PersistentBody(fh).Some? && decoded.Success? ==> Mint(old(State()), Fs(decoded.value)).0 != Some(fh)
      ensures r.Failure? ==> r.status == if PersistentBody(fh).Some? && decoded.Failure? then decoded.status else Status.Stale
      ensures State() == if fh in old(fhToObject) || PersistentBody(fh).None? || decoded.Failure? then old(State())
                         else Mint(old(State()), Fs(decoded.value)).1
    {
      LookupIsMap(State(), fh);
      var known := FhToObject(fh);
      if known.Some? {
        return Success(known.value);
      }
      if PersistentBody(fh).None? {
        return Failure(Status.Stale);
      }
      if decoded.Failure? {
        return Failure(decoded.status);
      }
      var obj := Fs(decoded.value);
      MintKeeps(State(), obj);
      var minted := ObjectToFh(obj);
      if minted == Some(fh) {
        return Success(obj);
      }
      return Failure(Status.Stale);
    }
  }

  /** Where the choice is not the object's own encoding it is the counter's handle, and only then. */
  ghost predicate BootOnlyIfNeeded(m: Maps, obj: ServerObject) {
    Choice(m, obj) == BootFh(m.nonce, m.next) <==> !MayClaim(m, obj)
  }

  lemma ChoiceIsBoot(m: Maps, obj: ServerObject)
    requires Inv(m) && m.next <= U64_MAX
    ensures BootOnlyIfNeeded(m, obj)
  {
    LayoutsDisjoint(m.nonce, m.next, m.next);
    assert obj.Fs? && obj.id in m.persistent ==> PersistentBody(m.recorded[obj.id]).Some?;
  }

  lemma SweptMaps(m: Maps, ids: set<ObjectId>, stale: set<Bytes>)
    requires Inverse(m) && stale == set fh | fh in m.fhToObject && m.fhToObject[fh].Base() in ids
    ensures m.fhToObject - stale == Sweep(m, ids).fhToObject
    ensures m.objectToFh - (set fh | fh in stale :: m.fhToObject[fh]) == Sweep(m, ids).objectToFh
  {
    var gone := set fh | fh in stale :: m.fhToObject[fh];
    forall o | o in m.objectToFh
      ensures o in gone <==> o.Base() in ids
    {
      assert m.fhToObject[m.objectToFh[o]] == o;
      if o.Base() in ids {
        assert m.objectToFh[o] in stale;
      }
    }
  }
}
