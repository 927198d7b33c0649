/**
  Byte-range lock lists. A lock state keeps its ranges as a list of (type, offset, length)
  triples with "to end of file" written as length 2^64-1. The list is a representation of
  a map from byte positions to lock types; LOCK and LOCKU are shown to be point updates of
  that map, for every position below 2^64-1.
 */
module LockRanges {
  import opened NfsTypes

  datatype LockType = ReadLt | WriteLt | ReadwLt | WritewLt

  datatype LockRange = LockRange(locktype: LockType, offset: u64, length: u64) {
    function End(): int {
      LockEnd(offset, length)
    }

    predicate Bounded() {
      ValidBounds(offset, length)
    }

    predicate Covers(p: int) {
      offset <= p < End()
    }
  }

  predicate IsWriteLock(t: LockType) {
    t == WriteLt || t == WritewLt
  }

  function LockEnd(offset: u64, length: u64): int {
    if length == U64_MAX then U128_MAX else offset + length
  }

  predicate LocksOverlap(aOffset: u64, aLength: u64, bOffset: u64, bLength: u64) {
    aOffset < LockEnd(bOffset, bLength) && bOffset < LockEnd(aOffset, aLength)
  }

  /** Narrowing to 64 bits. */
  function Narrow(x: int): u64
    requires 0 <= x
  {
    if x <= U64_MAX then x else x % (U64_MAX + 1)
  }

  function RangeFromBounds(t: LockType, start: u64, end: int): Option<LockRange>
    requires end <= U128_MAX
  {
    if start >= end then
      None
    else
      Some(LockRange(t, start, if end == U128_MAX then U64_MAX else Narrow(end - start)))
  }

  predicate ValidBounds(offset: u64, length: u64) {
    length != 0 && (length == U64_MAX || offset + length <= U64_MAX)
  }

  // ---- The byte map a list stands for ----

  function TypeAt(rs: seq<LockRange>, p: int): Option<LockType> {
    if rs == [] then None
    else if rs[0].Covers(p) then Some(rs[0].locktype)
    else TypeAt(rs[1..], p)
  }

  /** Whether some range of type t covers p; meaningful also where ranges overlap. */
  predicate Holds(rs: seq<LockRange>, t: LockType, p: int) {
    exists i | 0 <= i < |rs| :: rs[i].locktype == t && rs[i].Covers(p)
  }

  function ClipEnd(r: LockRange): int {
    if r.End() < U64_MAX then r.End() else U64_MAX
  }

  /** a lies before b and they share no byte below 2^64-1. */
  predicate Separate(a: LockRange, b: LockRange) {
    ClipEnd(a) <= b.offset
  }

  /** Separate, and below 2^64-1 the two could not be merged into one range. */
  predicate Apart(a: LockRange, b: LockRange) {
    Separate(a, b) && (a.locktype == b.locktype && b.offset < U64_MAX ==> ClipEnd(a) < b.offset)
  }

  ghost predicate Sorted(rs: seq<LockRange>) {
    && (forall i | 0 <= i < |rs| :: rs[i].Bounded())
    && (forall i, j | 0 <= i < j < |rs| :: Separate(rs[i], rs[j]))
  }

  /** The form every stored list has: sorted, disjoint below 2^64-1, maximally merged. */
  ghost predicate Canonical(rs: seq<LockRange>) {
    && (forall i | 0 <= i < |rs| :: rs[i].Bounded())
    && (forall i, j | 0 <= i < j < |rs| :: Apart(rs[i], rs[j]))
  }

  lemma {:induction false} TypeAtConcat(a: seq<LockRange>, b: seq<LockRange>, p: int)
    ensures TypeAt(a + b, p) == if TypeAt(a, p).Some? then TypeAt(a, p) else TypeAt(b, p)
  {
    if a == [] {
      assert a + b == b;
    } else {
      assert (a + b)[1..] == a[1..] + b;
      TypeAtConcat(a[1..], b, p);
    }
  }

  /** In a sorted list the type found at a position is the type of any range covering it. */
  lemma {:induction false} TypeAtUnique(rs: seq<LockRange>, i: nat, p: int)
    requires Sorted(rs) && i < |rs| && rs[i].Covers(p) && p < U64_MAX
    ensures TypeAt(rs, p) == Some(rs[i].locktype)
  {
    if i > 0 {
      assert Separate(rs[0], rs[i]);
      TypeAtUnique(rs[1..], i - 1, p);
    }
  }

  lemma {:induction false} TypeAtWitness(rs: seq<LockRange>, p: int) returns (i: nat)
    requires TypeAt(rs, p).Some?
    ensures i < |rs| && rs[i].Covers(p) && rs[i].locktype == TypeAt(rs, p).value
  {
    if rs[0].Covers(p) {
      i := 0;
    } else {
      var k := TypeAtWitness(rs[1..], p);
      i := k + 1;
    }
  }

  // ---- Cutting a request out of a list ----

  function Optional(r: Option<LockRange>): seq<LockRange> {
    if r.Some? then [r.value] else []
  }

  function CutRange(r: LockRange, offset: u64, length: u64): seq<LockRange>
    requires ValidBounds(offset, length)
  {
    if !LocksOverlap(r.offset, r.length, offset, length) then [r]
    else
      var end := LockEnd(offset, length);
      Optional(RangeFromBounds(r.locktype, r.offset, offset))
      + if end != U128_MAX then Optional(RangeFromBounds(r.locktype, end, r.End())) else []
  }

  function CutAll(rs: seq<LockRange>, offset: u64, length: u64): seq<LockRange>
    requires ValidBounds(offset, length)
  {
    if rs == [] then []
    else CutAll(rs[..|rs| - 1], offset, length) + CutRange(rs[|rs| - 1], offset, length)
  }

  lemma CutRangeBytes(r: LockRange, offset: u64, length: u64, p: int)
    requires r.Bounded() && ValidBounds(offset, length) && p < U64_MAX
    ensures TypeAt(CutRange(r, offset, length), p)
         == if r.Covers(p) && !(offset <= p < LockEnd(offset, length)) then Some(r.locktype) else None
  {
    var end := LockEnd(offset, length);
    if LocksOverlap(r.offset, r.length, offset, length) {
      var left := Optional(RangeFromBounds(r.locktype, r.offset, offset));
      var right := if end != U128_MAX then Optional(RangeFromBounds(r.locktype, end, r.End())) else [];
      TypeAtConcat(left, right, p);
    }
  }

  /** The pieces of r stay inside r and do not touch each other. */
  lemma CutRangeShape(r: LockRange, offset: u64, length: u64)
    requires r.Bounded() && ValidBounds(offset, length)
    ensures Canonical(CutRange(r, offset, length))
    ensures forall q | q in CutRange(r, offset, length) ::
              q.locktype == r.locktype && r.offset <= q.offset && q.End() <= r.End()
  {
  }

  lemma {:induction false} CutAllBytes(rs: seq<LockRange>, offset: u64, length: u64, p: int)
    requires (forall i | 0 <= i < |rs| :: rs[i].Bounded()) && ValidBounds(offset, length) && p < U64_MAX
    ensures TypeAt(CutAll(rs, offset, length), p)
         == if offset <= p < LockEnd(offset, length) then None else TypeAt(rs, p)
  {
    if rs != [] {
      var n := |rs| - 1;
      assert rs == rs[..n] + [rs[n]];
      TypeAtConcat(rs[..n], [rs[n]], p);
      TypeAtConcat(CutAll(rs[..n], offset, length), CutRange(rs[n], offset, length), p);
      CutAllBytes(rs[..n], offset, length, p);
      CutRangeBytes(rs[n], offset, length, p);
    }
  }

  /** Every piece comes from one range of the list and stays inside it. */
  lemma {:induction false} CutAllOrigin(rs: seq<LockRange>, offset: u64, length: u64, q: LockRange) returns (i: nat)
    requires (forall k | 0 <= k < |rs| :: rs[k].Bounded()) && ValidBounds(offset, length)
    requires q in CutAll(rs, offset, length)
    ensures i < |rs| && q.locktype == rs[i].locktype && rs[i].offset <= q.offset && q.End() <= rs[i].End()
  {
    var n := |rs| - 1;
    CutRangeShape(rs[n], offset, length);
    if q in CutRange(rs[n], offset, length) {
      i := n;
    } else {
      i := CutAllOrigin(rs[..n], offset, length, q);
    }
  }

  predicate Inside(q: LockRange, r: LockRange) {
    q.locktype == r.locktype && r.offset <= q.offset && q.End() <= r.End()
  }

  lemma ApartInside(a: LockRange, b: LockRange, q: LockRange, r: LockRange)
    requires Apart(a, b) && Inside(q, a) && Inside(r, b)
    ensures Apart(q, r)
  {
  }

  lemma CanonicalConcat(a: seq<LockRange>, b: seq<LockRange>)
    requires Canonical(a) && Canonical(b)
    requires forall i, j | 0 <= i < |a| && 0 <= j < |b| :: Apart(a[i], b[j])
    ensures Canonical(a + b)
  {
  }

  lemma {:induction false} CutAllCanonical(rs: seq<LockRange>, offset: u64, length: u64)
    requires Canonical(rs) && ValidBounds(offset, length)
    ensures Canonical(CutAll(rs, offset, length))
  {
    if rs != [] {
      var n := |rs| - 1;
      var front, back := CutAll(rs[..n], offset, length), CutRange(rs[n], offset, length);
      CutAllCanonical(rs[..n], offset, length);
      CutRangeShape(rs[n], offset, length);
      forall i, j | 0 <= i < |front| && 0 <= j < |back|
        ensures Apart(front[i], back[j])
      {
        var k := CutAllOrigin(rs[..n], offset, length, front[i]);
        assert back[j] in back;
        ApartInside(rs[k], rs[n], front[i], back[j]);
      }
      CanonicalConcat(front, back);
    }
  }

  // ---- Inserting and merging ----

  /** Where the stable sort by offset puts r in a list already in order. */
  function InsertByOffset(r: LockRange, rs: seq<LockRange>): seq<LockRange> {
    if rs == [] || r.offset < rs[0].offset then [r] + rs
    else [rs[0]] + InsertByOffset(r, rs[1..])
  }

  function SortByOffset(rs: seq<LockRange>): seq<LockRange> {
    if rs == [] then [] else InsertByOffset(rs[|rs| - 1], SortByOffset(rs[..|rs| - 1]))
  }

  lemma {:induction false} SortOfSorted(rs: seq<LockRange>)
    requires Sorted(rs)
    ensures SortByOffset(rs) == rs
  {
    if rs != [] {
      var n := |rs| - 1;
      var front := rs[..n];
      SortOfSorted(front);
      InsertLast(rs[n], front);
      assert rs == front + [rs[n]];
    }
  }

  lemma {:induction false} InsertLast(r: LockRange, rs: seq<LockRange>)
    requires forall i | 0 <= i < |rs| :: rs[i].offset <= r.offset
    ensures InsertByOffset(r, rs) == rs + [r]
  {
    if rs != [] {
      InsertLast(r, rs[1..]);
      assert rs == [rs[0]] + rs[1..];
    }
  }

  /** r shares no byte below 2^64-1 with any range of rs. */
  ghost predicate Clear(r: LockRange, rs: seq<LockRange>) {
    forall i | 0 <= i < |rs| :: Separate(r, rs[i]) || Separate(rs[i], r)
  }

  lemma {:induction false} InsertElements(r: LockRange, rs: seq<LockRange>, q: LockRange)
    ensures q in InsertByOffset(r, rs) <==> q == r || q in rs
  {
    if !(rs == [] || r.offset < rs[0].offset) {
      InsertElements(r, rs[1..], q);
      assert q in rs <==> q == rs[0] || q in rs[1..];
    }
  }

  lemma {:induction false} InsertSorted(r: LockRange, rs: seq<LockRange>)
    requires Sorted(rs) && r.Bounded() && Clear(r, rs)
    ensures Sorted(InsertByOffset(r, rs))
  {
    if !(rs == [] || r.offset < rs[0].offset) {
      var tail := InsertByOffset(r, rs[1..]);
      InsertSorted(r, rs[1..]);
      forall j | 0 <= j < |tail|
        ensures Separate(rs[0], tail[j])
      {
        InsertElements(r, rs[1..], tail[j]);
        if tail[j] != r {
          assert tail[j] in rs[1..];
        }
      }
    }
  }

  lemma {:induction false} InsertBytes(r: LockRange, rs: seq<LockRange>, p: int)
    requires Clear(r, rs) && p < U64_MAX
    ensures TypeAt(InsertByOffset(r, rs), p) == if r.Covers(p) then Some(r.locktype) else TypeAt(rs, p)
  {
    if rs == [] || r.offset < rs[0].offset {
      assert ([r] + rs)[1..] == rs;
    } else {
      var tail := InsertByOffset(r, rs[1..]);
      assert ([rs[0]] + tail)[1..] == tail;
      InsertBytes(r, rs[1..], p);
    }
  }

  predicate Mergeable(last: LockRange, r: LockRange) {
    last.locktype == r.locktype && last.End() >= r.offset
  }

  function Max(a: int, b: int): int {
    if a > b then a else b
  }

  /** The merge pass over a sorted list: acc is what has been emitted so far. */
  function MergeInto(acc: seq<LockRange>, rest: seq<LockRange>): seq<LockRange>
    decreases |rest|
  {
    if rest == [] then acc else MergeInto(MergeStep(acc, rest[0]), rest[1..])
  }

  function Normalized(rs: seq<LockRange>): seq<LockRange> {
    MergeInto([], SortByOffset(rs))
  }

  /** What the merge pass maintains between the emitted and the remaining ranges. */
  ghost predicate Merging(acc: seq<LockRange>, rest: seq<LockRange>) {
    && Canonical(acc)
    && Sorted(rest)
    && forall i, j | 0 <= i < |acc| && 0 <= j < |rest| :: Separate(acc[i], rest[j])
  }

  /** Merging two touching ranges of one type gives their union, below 2^64-1. */
  lemma MergedRange(l: LockRange, r: LockRange)
    requires l.Bounded() && r.Bounded() && Separate(l, r) && Mergeable(l, r)
    ensures var m := RangeFromBounds(l.locktype, l.offset, Max(l.End(), r.End()));
            && m.Some? && m.value.Bounded()
            && m.value.locktype == l.locktype && m.value.offset == l.offset
            && ClipEnd(m.value) == ClipEnd(r)
            && forall p | p < U64_MAX :: m.value.Covers(p) <==> l.Covers(p) || r.Covers(p)
  {
  }

  /** One merge step, as the list it leaves behind. */
  function MergeStep(acc: seq<LockRange>, r: LockRange): seq<LockRange> {
    if acc != [] && Mergeable(acc[|acc| - 1], r) then
      var last := acc[|acc| - 1];
      acc[..|acc| - 1] + Optional(RangeFromBounds(last.locktype, last.offset, Max(last.End(), r.End())))
    else acc + [r]
  }

  lemma MergeStepKeeps(acc: seq<LockRange>, rest: seq<LockRange>)
    requires rest != [] && Merging(acc, rest)
    ensures Merging(MergeStep(acc, rest[0]), rest[1..])
  {
    var r, n := rest[0], |acc| - 1;
    if acc != [] && Mergeable(acc[n], r) {
      MergedRange(acc[n], r);
      var m := MergeStep(acc, r)[n];
      assert MergeStep(acc, r) == acc[..n] + [m];
      assert forall i | 0 <= i < n :: Apart(acc[i], acc[n]) ==> Apart(acc[i], m);
      assert forall j | 0 < j < |rest| :: Separate(r, rest[j]) ==> Separate(m, rest[j]);
    } else {
      forall i | 0 <= i < |acc|
        ensures Apart(acc[i], r)
      {
        assert Separate(acc[i], r);
        if i < n {
          assert Apart(acc[i], acc[n]) && Separate(acc[n], r);
        }
      }
    }
  }

  lemma MergeStepBytes(acc: seq<LockRange>, rest: seq<LockRange>, p: int)
    requires rest != [] && Merging(acc, rest) && p < U64_MAX
    ensures TypeAt(MergeStep(acc, rest[0]) + rest[1..], p) == TypeAt(acc + rest, p)
  {
    var r, n := rest[0], |acc| - 1;
    if acc != [] && Mergeable(acc[n], r) {
      MergedRange(acc[n], r);
      var m := MergeStep(acc, r)[n];
      assert MergeStep(acc, r) + rest[1..] == acc[..n] + ([m] + rest[1..]);
      assert acc + rest == acc[..n] + ([acc[n]] + ([r] + rest[1..]));
      TypeAtConcat(acc[..n], [m] + rest[1..], p);
      TypeAtConcat(acc[..n], [acc[n]] + ([r] + rest[1..]), p);
      assert ([m] + rest[1..])[1..] == rest[1..];
      assert ([acc[n]] + ([r] + rest[1..]))[1..] == [r] + rest[1..];
      assert ([r] + rest[1..])[1..] == rest[1..];
    } else {
      assert MergeStep(acc, r) + rest[1..] == acc + rest;
    }
  }

  lemma {:induction false} MergeIntoCanonical(acc: seq<LockRange>, rest: seq<LockRange>)
    requires Merging(acc, rest)
    ensures Canonical(MergeInto(acc, rest))
    decreases |rest|
  {
    if rest != [] {
      MergeStepKeeps(acc, rest);
      MergeIntoCanonical(MergeStep(acc, rest[0]), rest[1..]);
    }
  }

  lemma {:induction false} MergeIntoBytes(acc: seq<LockRange>, rest: seq<LockRange>, p: int)
    requires Merging(acc, rest) && p < U64_MAX
    ensures TypeAt(MergeInto(acc, rest), p) == TypeAt(acc + rest, p)
    decreases |rest|
  {
    if rest == [] {
      assert acc + rest == acc;
    } else {
      MergeStepKeeps(acc, rest);
      MergeStepBytes(acc, rest, p);
      MergeIntoBytes(MergeStep(acc, rest[0]), rest[1..], p);
    }
  }

  /** In any order, but no two share a byte below 2^64-1. */
  ghost predicate Disjoint(rs: seq<LockRange>) {
    && (forall i | 0 <= i < |rs| :: rs[i].Bounded())
    && (forall i, j | 0 <= i < j < |rs| :: Separate(rs[i], rs[j]) || Separate(rs[j], rs[i]))
  }

  lemma ClearElsewhere(r: LockRange, rs: seq<LockRange>, p: int)
    requires Clear(r, rs) && p < U64_MAX && r.Covers(p)
    ensures TypeAt(rs, p) == None
  {
    if TypeAt(rs, p).Some? {
      var i := TypeAtWitness(rs, p);
    }
  }

  lemma {:induction false} SortDisjoint(rs: seq<LockRange>, p: int)
    requires Disjoint(rs) && p < U64_MAX
    ensures Sorted(SortByOffset(rs)) && TypeAt(SortByOffset(rs), p) == TypeAt(rs, p)
  {
    if rs != [] {
      var front, r := rs[..|rs| - 1], rs[|rs| - 1];
      var sorted := SortByOffset(front);
      SortDisjoint(front, p);
      SortClear(front, r);
      InsertSorted(r, sorted);
      InsertBytes(r, sorted, p);
      TypeAtConcat(front, [r], p);
      assert rs == front + [r];
      if r.Covers(p) {
        assert Clear(r, front);
        ClearElsewhere(r, front, p);
      }
    }
  }

  lemma SortClear(rs: seq<LockRange>, r: LockRange)
    requires Clear(r, rs)
    ensures Clear(r, SortByOffset(rs))
  {
    var sorted := SortByOffset(rs);
    forall i | 0 <= i < |sorted|
      ensures Separate(r, sorted[i]) || Separate(sorted[i], r)
    {
      SortElements(rs);
      assert sorted[i] in rs;
    }
  }

  /** Normalising disjoint ranges keeps every byte and gives the canonical form. */
  lemma NormalizedIsSame(rs: seq<LockRange>)
    requires Disjoint(rs)
    ensures Canonical(Normalized(rs))
    ensures forall p | p < U64_MAX :: TypeAt(Normalized(rs), p) == TypeAt(rs, p)
  {
    var sorted := SortByOffset(rs);
    SortDisjoint(rs, 0);
    MergeIntoCanonical([], sorted);
    forall p | p < U64_MAX
      ensures TypeAt(Normalized(rs), p) == TypeAt(rs, p)
    {
      SortDisjoint(rs, p);
      MergeIntoBytes([], sorted, p);
      assert [] + sorted == sorted;
    }
  }

  // ---- LOCK and LOCKU on a list ----

  function Replaced(rs: seq<LockRange>, r: LockRange): seq<LockRange>
    requires r.Bounded()
  {
    Normalized(CutAll(rs, r.offset, r.length) + [r])
  }

  function Unlocked(rs: seq<LockRange>, offset: u64, length: u64): seq<LockRange>
    requires ValidBounds(offset, length)
  {
    CutAll(rs, offset, length)
  }

  /** What is left after the cut does not meet the request below 2^64-1. */
  lemma CutAllClear(rs: seq<LockRange>, r: LockRange)
    requires Canonical(rs) && r.Bounded()
    ensures Clear(r, CutAll(rs, r.offset, r.length))
  {
    var cut := CutAll(rs, r.offset, r.length);
    CutAllCanonical(rs, r.offset, r.length);
    forall i | 0 <= i < |cut|
      ensures Separate(r, cut[i]) || Separate(cut[i], r)
    {
      CutPieceClear(rs, r, cut[i]);
    }
  }

  lemma {:induction false} CutPieceClear(rs: seq<LockRange>, r: LockRange, q: LockRange)
    requires (forall k | 0 <= k < |rs| :: rs[k].Bounded()) && r.Bounded() && q in CutAll(rs, r.offset, r.length)
    ensures Separate(r, q) || Separate(q, r)
  {
    var n := |rs| - 1;
    if q !in CutRange(rs[n], r.offset, r.length) {
      CutPieceClear(rs[..n], r, q);
    }
  }

  lemma ReplacedShape(rs: seq<LockRange>, r: LockRange)
    requires Canonical(rs) && r.Bounded()
    ensures Replaced(rs, r) == MergeInto([], InsertByOffset(r, CutAll(rs, r.offset, r.length)))
    ensures Merging([], InsertByOffset(r, CutAll(rs, r.offset, r.length)))
  {
    var cut := CutAll(rs, r.offset, r.length);
    CutAllCanonical(rs, r.offset, r.length);
    CutAllClear(rs, r);
    SortOfSorted(cut);
    assert (cut + [r])[..|cut|] == cut;
    InsertSorted(r, cut);
  }

  /** LOCK on an owner's list is a point update of its byte map, and keeps the list canonical. */
  lemma ReplacedIsUpdate(rs: seq<LockRange>, r: LockRange)
    requires Canonical(rs) && r.Bounded()
    ensures Canonical(Replaced(rs, r))
    ensures forall p | p < U64_MAX ::
              TypeAt(Replaced(rs, r), p) == if r.Covers(p) then Some(r.locktype) else TypeAt(rs, p)
  {
    var cut := CutAll(rs, r.offset, r.length);
    var sorted := InsertByOffset(r, cut);
    ReplacedShape(rs, r);
    MergeIntoCanonical([], sorted);
    CutAllClear(rs, r);
    forall p | p < U64_MAX
      ensures TypeAt(Replaced(rs, r), p) == if r.Covers(p) then Some(r.locktype) else TypeAt(rs, p)
    {
      MergeIntoBytes([], sorted, p);
      assert [] + sorted == sorted;
      InsertBytes(r, cut, p);
      CutAllBytes(rs, r.offset, r.length, p);
    }
  }

  /** The merge pass never drops the last range. */
  lemma {:induction false} MergeNonEmpty(acc: seq<LockRange>, rest: seq<LockRange>)
    requires acc + rest != [] && Merging(acc, rest)
    ensures MergeInto(acc, rest) != []
    decreases |rest|
  {
    if rest != [] {
      if acc != [] && Mergeable(acc[|acc| - 1], rest[0]) {
        MergedRange(acc[|acc| - 1], rest[0]);
      }
      MergeStepKeeps(acc, rest);
      MergeNonEmpty(MergeStep(acc, rest[0]), rest[1..]);
    }
  }

  /** A granted LOCK leaves something locked. */
  lemma ReplacedNonEmpty(rs: seq<LockRange>, r: LockRange)
    requires Canonical(rs) && r.Bounded()
    ensures Replaced(rs, r) != []
  {
    ReplacedShape(rs, r);
    MergeNonEmpty([], InsertByOffset(r, CutAll(rs, r.offset, r.length)));
  }

  /** LOCKU clears the byte map inside the request and nowhere else. */
  lemma UnlockedIsUpdate(rs: seq<LockRange>, offset: u64, length: u64)
    requires Canonical(rs) && ValidBounds(offset, length)
    ensures Canonical(Unlocked(rs, offset, length))
    ensures forall p | p < U64_MAX ::
              TypeAt(Unlocked(rs, offset, length), p)
              == if offset <= p < LockEnd(offset, length) then None else TypeAt(rs, p)
  {
    CutAllCanonical(rs, offset, length);
    forall p | p < U64_MAX
      ensures TypeAt(Unlocked(rs, offset, length), p)
              == if offset <= p < LockEnd(offset, length) then None else TypeAt(rs, p)
    {
      CutAllBytes(rs, offset, length, p);
    }
  }

  // ---- The operations as the server runs them ----

  method NormalizeLockRanges(ranges: seq<LockRange>) returns (normalized: seq<LockRange>)
    requires forall i | 0 <= i < |ranges| :: ranges[i].Bounded()
    ensures normalized == Normalized(ranges)
    ensures Disjoint(ranges) ==>
              Canonical(normalized) && forall p | p < U64_MAX :: TypeAt(normalized, p) == TypeAt(ranges, p)
  {
    if Disjoint(ranges) {
      NormalizedIsSame(ranges);
    }
    var sorted := SortByOffset(ranges);
    SortElements(ranges);
    normalized := [];
    for i := 0 to |sorted|
      invariant forall q | q in normalized :: q.Bounded()
      invariant MergeInto(normalized, sorted[i..]) == MergeInto([], sorted)
    {
      var range := sorted[i];
      assert range in ranges && sorted[i..][0] == range && sorted[i..][1..] == sorted[i + 1..];
      ghost var next := MergeStep(normalized, range);
      var n := |normalized| - 1;
      if normalized != [] && Mergeable(normalized[n], range) {
        var last := normalized[n];
        UnionBounded(last, range);
        var union := RangeFromBounds(last.locktype, last.offset, Max(last.End(), range.End()));
        normalized := normalized[..n] + [union.value];
      } else {
        normalized := normalized + [range];
      }
      assert normalized == next;
    }
  }

  lemma UnionBounded(l: LockRange, r: LockRange)
    requires l.Bounded() && r.Bounded()
    ensures var union := RangeFromBounds(l.locktype, l.offset, Max(l.End(), r.End()));
            union.Some? && union.value.Bounded()
  {
  }

  lemma {:induction false} SortElements(rs: seq<LockRange>)
    ensures forall q :: q in SortByOffset(rs) <==> q in rs
  {
    if rs != [] {
      var n := |rs| - 1;
      SortElements(rs[..n]);
      assert rs == rs[..n] + [rs[n]];
      forall q
        ensures q in SortByOffset(rs) <==> q in rs
      {
        InsertElements(rs[n], SortByOffset(rs[..n]), q);
      }
    }
  }

  /** What is left of one range outside the request. */
  method CutOne(range: LockRange, offset: u64, length: u64) returns (pieces: seq<LockRange>)
    requires ValidBounds(offset, length)
    ensures pieces == CutRange(range, offset, length)
  {
    if !LocksOverlap(range.offset, range.length, offset, length) {
      return [range];
    }
    var end := LockEnd(offset, length);
    pieces := [];
    var left := RangeFromBounds(range.locktype, range.offset, offset);
    if left.Some? {
      pieces := [left.value];
    }
    if end != U128_MAX {
      var right := RangeFromBounds(range.locktype, end, range.End());
      if right.Some? {
        pieces := pieces + [right.value];
      }
    }
  }

  /** The loop shared by LOCK and LOCKU: keep what lies outside the request. */
  method CarveOut(ranges: seq<LockRange>, offset: u64, length: u64) returns (next: seq<LockRange>)
    requires ValidBounds(offset, length)
    ensures next == CutAll(ranges, offset, length)
  {
    next := [];
    for i := 0 to |ranges|
      invariant next == CutAll(ranges[..i], offset, length)
    {
      assert ranges[..i + 1][..i] == ranges[..i];
      var pieces := CutOne(ranges[i], offset, length);
      next := next + pieces;
    }
    assert ranges[..|ranges|] == ranges;
  }

  method ReplaceLockRange(ranges: seq<LockRange>, replacement: LockRange) returns (next: seq<LockRange>)
    requires Canonical(ranges) && replacement.Bounded()
    ensures next == Replaced(ranges, replacement)
    ensures Canonical(next)
    ensures forall p | p < U64_MAX ::
              TypeAt(next, p) == if replacement.Covers(p) then Some(replacement.locktype) else TypeAt(ranges, p)
  {
    next := CarveOut(ranges, replacement.offset, replacement.length);
    CutAllCanonical(ranges, replacement.offset, replacement.length);
    next := NormalizeLockRanges(next + [replacement]);
    ReplacedIsUpdate(ranges, replacement);
  }

  /** A request that meets no range changes nothing; otherwise it is cut out. */
  method UnlockRanges(ranges: seq<LockRange>, offset: u64, length: u64) returns (next: seq<LockRange>)
    requires Canonical(ranges) && ValidBounds(offset, length)
    ensures next == Unlocked(ranges, offset, length)
    ensures Canonical(next)
    ensures forall p | p < U64_MAX ::
              TypeAt(next, p) == if offset <= p < LockEnd(offset, length) then None else TypeAt(ranges, p)
  {
    UnlockedIsUpdate(ranges, offset, length);
    if !(exists i | 0 <= i < |ranges| :: LocksOverlap(ranges[i].offset, ranges[i].length, offset, length)) {
      CutAllNoOverlap(ranges, offset, length);
      return ranges;
    }
    next := CarveOut(ranges, offset, length);
  }

  lemma {:induction false} CutAllNoOverlap(rs: seq<LockRange>, offset: u64, length: u64)
    requires ValidBounds(offset, length)
    requires forall i | 0 <= i < |rs| :: !LocksOverlap(rs[i].offset, rs[i].length, offset, length)
    ensures CutAll(rs, offset, length) == rs
  {
    if rs != [] {
      CutAllNoOverlap(rs[..|rs| - 1], offset, length);
    }
  }

  /** LOCK of a free range is undone by LOCKU of the same range, byte for byte below 2^64-1. */
  lemma LockThenUnlock(rs: seq<LockRange>, r: LockRange, p: int)
    requires Canonical(rs) && r.Bounded() && p < U64_MAX
    requires forall q | q < U64_MAX && r.Covers(q) :: TypeAt(rs, q) == None
    ensures TypeAt(Unlocked(Replaced(rs, r), r.offset, r.length), p) == TypeAt(rs, p)
  {
    ReplacedIsUpdate(rs, r);
    UnlockedIsUpdate(Replaced(rs, r), r.offset, r.length);
  }

  // ---- The last byte, 2^64-1 ----

  // A finite range [0, 2^64-1) has length 2^64-1 and therefore reads back as "to end of
  // file", so an operation that produces it also takes the last byte. The results below say
  // exactly when that happens.

  /** Whether the owner holds the whole file, 0 to end of file. */
  predicate HoldsWholeFile(rs: seq<LockRange>) {
    exists i | 0 <= i < |rs| :: rs[i].offset == 0 && rs[i].length == U64_MAX
  }

  /** LOCKU of the last byte alone is a no-op for an owner of the whole file. */
  lemma UnlockLastByteFails()
    ensures var rs := [LockRange(WriteLt, 0, U64_MAX)];
            && Canonical(rs)
            && Unlocked(rs, U64_MAX, U64_MAX) == rs
  {
    var rs := [LockRange(WriteLt, 0, U64_MAX)];
    assert rs[..0] == [];
    assert CutAll(rs, U64_MAX, U64_MAX) == CutAll(rs[..0], U64_MAX, U64_MAX) + CutRange(rs[0], U64_MAX, U64_MAX);
  }

  lemma {:induction false} CutAllHolds(rs: seq<LockRange>, offset: u64, length: u64, t: LockType)
    requires (forall i | 0 <= i < |rs| :: rs[i].Bounded()) && ValidBounds(offset, length)
    ensures Holds(CutAll(rs, offset, length), t, U64_MAX)
         <==> exists i | 0 <= i < |rs| :: rs[i].locktype == t && CutKeepsLast(rs[i], offset, length)
  {
    var cut := CutAll(rs, offset, length);
    if rs != [] {
      var n := |rs| - 1;
      var front, back := CutAll(rs[..n], offset, length), CutRange(rs[n], offset, length);
      CutAllHolds(rs[..n], offset, length, t);
      HoldsConcat(front, back, t);
      assert Holds(back, t, U64_MAX) <==> rs[n].locktype == t && CutKeepsLast(rs[n], offset, length) by {
        CutRangeHolds(rs[n], offset, length, t);
      }
      if i :| 0 <= i < |rs| && rs[i].locktype == t && CutKeepsLast(rs[i], offset, length) {
        assert i < n ==> rs[..n][i] == rs[i];
      }
    }
  }

  /** After cutting the request out of r, does a piece of r still cover the last byte? */
  predicate CutKeepsLast(r: LockRange, offset: u64, length: u64) {
    r.Covers(U64_MAX) && (length != U64_MAX || (offset == U64_MAX && r.offset == 0))
  }

  lemma CutRangeHolds(r: LockRange, offset: u64, length: u64, t: LockType)
    requires r.Bounded() && ValidBounds(offset, length)
    ensures Holds(CutRange(r, offset, length), t, U64_MAX)
         <==> r.locktype == t && CutKeepsLast(r, offset, length)
  {
    var cut := CutRange(r, offset, length);
    if r.locktype == t && CutKeepsLast(r, offset, length) {
      assert cut[|cut| - 1].locktype == t && cut[|cut| - 1].Covers(U64_MAX);
    }
  }

  lemma HoldsConcat(a: seq<LockRange>, b: seq<LockRange>, t: LockType)
    ensures Holds(a + b, t, U64_MAX) <==> Holds(a, t, U64_MAX) || Holds(b, t, U64_MAX)
  {
    if i :| 0 <= i < |a| && a[i].locktype == t && a[i].Covers(U64_MAX) {
      assert (a + b)[i] == a[i];
    }
    if i :| 0 <= i < |b| && b[i].locktype == t && b[i].Covers(U64_MAX) {
      assert (a + b)[|a| + i] == b[i];
    }
  }

  /** LOCKU is exact on the last byte too, except for exactly that case. */
  lemma UnlockLastByte(rs: seq<LockRange>, offset: u64, length: u64)
    requires Canonical(rs) && ValidBounds(offset, length)
    ensures (forall t :: Holds(Unlocked(rs, offset, length), t, U64_MAX)
                     <==> Holds(rs, t, U64_MAX) && !(offset <= U64_MAX < LockEnd(offset, length)))
       <==> !(offset == U64_MAX && HoldsWholeFile(rs))
  {
    forall t {
      CutAllHolds(rs, offset, length, t);
    }
    if offset == U64_MAX && HoldsWholeFile(rs) {
      var i :| 0 <= i < |rs| && rs[i].offset == 0 && rs[i].length == U64_MAX;
      assert CutKeepsLast(rs[i], offset, length);
      assert Holds(Unlocked(rs, offset, length), rs[i].locktype, U64_MAX);
    }
  }

  /** r's owner would hold every byte below 2^64-1 with r's type, and not the last one. */
  ghost predicate FillsAllButLast(rs: seq<LockRange>, r: LockRange) {
    && !r.Covers(U64_MAX)
    && !Holds(rs, r.locktype, U64_MAX)
    && forall p | 0 <= p < U64_MAX :: r.Covers(p) || TypeAt(rs, p) == Some(r.locktype)
  }

  /** r asks for the last byte alone while its owner holds the whole file with another type. */
  ghost predicate RetypesOnlyLast(rs: seq<LockRange>, r: LockRange) {
    && r.offset == U64_MAX
    && exists i | 0 <= i < |rs| :: rs[i].offset == 0 && rs[i].length == U64_MAX && rs[i].locktype != r.locktype
  }

  /** What LOCK promises of the last byte. */
  ghost predicate LockExactOnLast(rs: seq<LockRange>, r: LockRange)
    requires r.Bounded()
  {
    forall t :: Holds(Replaced(rs, r), t, U64_MAX)
           <==> if r.Covers(U64_MAX) then t == r.locktype else Holds(rs, t, U64_MAX)
  }

  lemma {:induction false} InsertHolds(r: LockRange, rs: seq<LockRange>, t: LockType)
    ensures Holds(InsertByOffset(r, rs), t, U64_MAX)
       <==> (r.locktype == t && r.Covers(U64_MAX)) || Holds(rs, t, U64_MAX)
  {
    if rs == [] || r.offset < rs[0].offset {
      HoldsConcat([r], rs, t);
      assert Holds([r], t, U64_MAX) <==> [r][0].locktype == t && [r][0].Covers(U64_MAX);
    } else {
      InsertHolds(r, rs[1..], t);
      assert rs == [rs[0]] + rs[1..];
      HoldsConcat([rs[0]], rs[1..], t);
      HoldsConcat([rs[0]], InsertByOffset(r, rs[1..]), t);
    }
  }

  /** A range covering every byte below 2^64-1 with type t. */
  predicate Uniform(rs: seq<LockRange>, t: LockType) {
    exists i | 0 <= i < |rs| :: rs[i].locktype == t && rs[i].offset == 0 && rs[i].End() >= U64_MAX
  }

  /** A merge pass can add the last byte only by producing [0, 2^64-1). */
  lemma {:induction false} MergeIntoHolds(acc: seq<LockRange>, rest: seq<LockRange>, t: LockType)
    requires Merging(acc, rest)
    ensures Holds(acc + rest, t, U64_MAX) ==> Holds(MergeInto(acc, rest), t, U64_MAX)
    ensures Holds(MergeInto(acc, rest), t, U64_MAX)
        ==> Holds(acc + rest, t, U64_MAX) || forall p | 0 <= p < U64_MAX :: TypeAt(acc + rest, p) == Some(t)
    decreases |rest|
  {
    if rest == [] {
      assert acc + rest == acc;
    } else {
      var next := MergeStep(acc, rest[0]);
      MergeStepKeeps(acc, rest);
      MergeIntoHolds(next, rest[1..], t);
      MergeStepHolds(acc, rest, t);
      if Holds(MergeInto(acc, rest), t, U64_MAX) && !Holds(acc + rest, t, U64_MAX) {
        forall p | 0 <= p < U64_MAX
          ensures TypeAt(acc + rest, p) == Some(t)
        {
          MergeStepBytes(acc, rest, p);
          if Uniform(next, t) {
            UniformTypeAt(next, rest[1..], t, p);
          }
        }
      }
    }
  }

  lemma UniformTypeAt(acc: seq<LockRange>, rest: seq<LockRange>, t: LockType, p: int)
    requires Merging(acc, rest) && Uniform(acc, t) && 0 <= p < U64_MAX
    ensures TypeAt(acc + rest, p) == Some(t)
  {
    var i :| 0 <= i < |acc| && acc[i].locktype == t && acc[i].offset == 0 && acc[i].End() >= U64_MAX;
    TypeAtUnique(acc, i, p);
    TypeAtConcat(acc, rest, p);
  }

  lemma MergeStepHolds(acc: seq<LockRange>, rest: seq<LockRange>, t: LockType)
    requires rest != [] && Merging(acc, rest)
    ensures var next := MergeStep(acc, rest[0]);
            && (Holds(acc + rest, t, U64_MAX) ==> Holds(next + rest[1..], t, U64_MAX))
            && (Holds(next + rest[1..], t, U64_MAX) ==> Holds(acc + rest, t, U64_MAX) || Uniform(next, t))
  {
    var r, n := rest[0], |acc| - 1;
    if acc != [] && Mergeable(acc[n], r) {
      MergedRange(acc[n], r);
      var next := MergeStep(acc, r);
      var m := next[n];
      assert next + rest[1..] == acc[..n] + ([m] + rest[1..]);
      assert acc + rest == acc[..n] + ([acc[n], r] + rest[1..]);
      HoldsConcat(acc[..n], [m] + rest[1..], t);
      HoldsConcat(acc[..n], [acc[n], r] + rest[1..], t);
      HoldsConcat([m], rest[1..], t);
      HoldsConcat([acc[n], r], rest[1..], t);
      MergedHolds(acc[n], r, m, t);
      if Holds([m], t, U64_MAX) && !Holds([acc[n], r], t, U64_MAX) {
        assert next[n].locktype == t;
      }
    } else {
      assert MergeStep(acc, r) + rest[1..] == acc + rest;
    }
  }

  lemma MergedHolds(l: LockRange, r: LockRange, m: LockRange, t: LockType)
    requires l.Bounded() && r.Bounded() && Separate(l, r) && Mergeable(l, r)
    requires RangeFromBounds(l.locktype, l.offset, Max(l.End(), r.End())) == Some(m)
    ensures Holds([l, r], t, U64_MAX) ==> Holds([m], t, U64_MAX)
    ensures Holds([m], t, U64_MAX) && !Holds([l, r], t, U64_MAX)
        ==> m.locktype == t && m.offset == 0 && m.End() >= U64_MAX
  {
    assert Holds([m], t, U64_MAX) <==> [m][0].locktype == t && [m][0].Covers(U64_MAX);
    assert [l, r][0] == l && [l, r][1] == r;
    assert l.locktype == t && (l.Covers(U64_MAX) || r.Covers(U64_MAX)) ==> Holds([l, r], t, U64_MAX);
  }

  /** A canonical list of one type on every byte below 2^64-1 is the whole-file range. */
  lemma UniformIsWholeFile(rs: seq<LockRange>, t: LockType) returns (i: nat)
    requires Canonical(rs) && forall p | 0 <= p < U64_MAX :: TypeAt(rs, p) == Some(t)
    ensures i < |rs| && rs[i] == LockRange(t, 0, U64_MAX)
  {
    i := TypeAtWitness(rs, 0);
    var e := ClipEnd(rs[i]);
    if e < U64_MAX {
      var j := TypeAtWitness(rs, e);
    }
  }

  /** Some range covers the last byte with type t before the merge pass of LOCK. */
  ghost predicate KeepsLast(rs: seq<LockRange>, r: LockRange, t: LockType) {
    || (r.locktype == t && r.Covers(U64_MAX))
    || exists i | 0 <= i < |rs| :: rs[i].locktype == t && CutKeepsLast(rs[i], r.offset, r.length)
  }

  lemma LockedHolds(rs: seq<LockRange>, r: LockRange, t: LockType)
    requires Canonical(rs) && r.Bounded()
    ensures KeepsLast(rs, r, t) ==> Holds(Replaced(rs, r), t, U64_MAX)
    ensures Holds(Replaced(rs, r), t, U64_MAX) && !KeepsLast(rs, r, t)
        ==> forall p | 0 <= p < U64_MAX :: if r.Covers(p) then t == r.locktype else TypeAt(rs, p) == Some(t)
  {
    var cut := CutAll(rs, r.offset, r.length);
    var sorted := InsertByOffset(r, cut);
    ReplacedShape(rs, r);
    CutAllHolds(rs, r.offset, r.length, t);
    InsertHolds(r, cut, t);
    assert [] + sorted == sorted;
    MergeIntoHolds([], sorted, t);
    if Holds(Replaced(rs, r), t, U64_MAX) && !KeepsLast(rs, r, t) {
      CutAllClear(rs, r);
      forall p | 0 <= p < U64_MAX
        ensures if r.Covers(p) then t == r.locktype else TypeAt(rs, p) == Some(t)
      {
        assert TypeAt(sorted, p) == Some(t);
        InsertBytes(r, cut, p);
        CutAllBytes(rs, r.offset, r.length, p);
      }
    }
  }

  /** LOCK is exact on the last byte if and only if neither of the two cases applies. */
  lemma LockLastByte(rs: seq<LockRange>, r: LockRange)
    requires Canonical(rs) && r.Bounded()
    ensures LockExactOnLast(rs, r) <==> !FillsAllButLast(rs, r) && !RetypesOnlyLast(rs, r)
  {
    if FillsAllButLast(rs, r) {
      ReplacedIsUpdate(rs, r);
      var i := UniformIsWholeFile(Replaced(rs, r), r.locktype);
    } else if RetypesOnlyLast(rs, r) {
      var i :| 0 <= i < |rs| && rs[i].offset == 0 && rs[i].length == U64_MAX && rs[i].locktype != r.locktype;
      assert CutKeepsLast(rs[i], r.offset, r.length);
      LockedHolds(rs, r, rs[i].locktype);
    } else {
      forall t
        ensures Holds(Replaced(rs, r), t, U64_MAX)
           <==> if r.Covers(U64_MAX) then t == r.locktype else Holds(rs, t, U64_MAX)
      {
        LockLastByteHolds(rs, r, t);
      }
    }
  }

  /** LOCK up to the last byte, by an owner of the byte before it, takes the last byte too. */
  lemma FillingTakesLastByte(t: LockType)
    ensures var rs, r := [LockRange(t, U64_MAX - 1, 1)], LockRange(t, 0, U64_MAX - 1);
            Canonical(rs) && r.Bounded() && FillsAllButLast(rs, r) && !LockExactOnLast(rs, r)
  {
    var rs, r := [LockRange(t, U64_MAX - 1, 1)], LockRange(t, 0, U64_MAX - 1);
    assert rs[0].Covers(U64_MAX - 1);
    LockLastByte(rs, r);
  }

  /** LOCK of the last byte alone for writing, by an owner of the whole file for reading, leaves it read-locked too. */
  lemma LastByteIsNotRetyped()
    ensures var rs, r := [LockRange(ReadLt, 0, U64_MAX)], LockRange(WriteLt, U64_MAX, U64_MAX);
            Canonical(rs) && r.Bounded() && RetypesOnlyLast(rs, r) && !LockExactOnLast(rs, r)
  {
    var rs, r := [LockRange(ReadLt, 0, U64_MAX)], LockRange(WriteLt, U64_MAX, U64_MAX);
    assert rs[0].offset == 0;
    LockLastByte(rs, r);
  }

  lemma LockLastByteHolds(rs: seq<LockRange>, r: LockRange, t: LockType)
    requires Canonical(rs) && r.Bounded() && !FillsAllButLast(rs, r) && !RetypesOnlyLast(rs, r)
    ensures Holds(Replaced(rs, r), t, U64_MAX)
       <==> if r.Covers(U64_MAX) then t == r.locktype else Holds(rs, t, U64_MAX)
  {
    LockedHolds(rs, r, t);
    if !r.Covers(U64_MAX) && Holds(rs, t, U64_MAX) {
      var i :| 0 <= i < |rs| && rs[i].locktype == t && rs[i].Covers(U64_MAX);
      assert CutKeepsLast(rs[i], r.offset, r.length);
    }
    if Holds(Replaced(rs, r), t, U64_MAX) && !KeepsLast(rs, r, t) {
      if r.offset == U64_MAX {
        var _ := UniformIsWholeFile(rs, t);
      } else {
        assert r.Covers(r.offset);
      }
    }
  }
}
