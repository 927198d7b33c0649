/**
  READDIR and LISTXATTRS replies on the wire: a client that decodes what the encoder wrote gets the
  entries, names, cookies and end flag that went in.
 */
module ReaddirWire {
  import opened NfsTypes
  import opened Xdr
  import opened Readdir

  function ReadU64(src: Bytes): Option<(u64, Bytes)> {
    Pow256Double();
    if |src| < 8 then None else Some((FromBigEndian(src[..8]), src[8..]))
  }

  lemma Pow256Double()
    ensures Pow256(8) == U64_MAX + 1
  {
  }

  lemma U64Trip(x: u64, rest: Bytes)
    ensures ReadU64(U64(x) + rest) == Some((x, rest))
  {
    var s := U64(x) + rest;
    assert s[..8] == U64(x) && s[8..] == rest;
    Pow256Double();
    BigEndianTrip(x, 8);
  }

  function ReadBool(src: Bytes): Option<(bool, Bytes)> {
    var w := ReadU32(src);
    if w.None? || w.value.0 > 1 then None else Some((w.value.0 == 1, w.value.1))
  }

  lemma BoolTrip(x: bool, rest: Bytes)
    ensures ReadBool(Bool(x) + rest) == Some((x, rest))
  {
    U32Trip(if x then 1 else 0, rest);
  }

  /** One entry, after its list marker. */
  function ReadEntry(src: Bytes): (r: Option<(Entry, Bytes)>)
    ensures r.Some? ==> |r.value.1| <= |src|
  {
    var cookie := ReadU64(src);
    if cookie.None? then None
    else
      var name := ReadOpaque(cookie.value.1);
      if name.None? then None
      else
        var attrs := ReadFattr(name.value.1);
        if attrs.None? then None else Some((Entry(cookie.value.0, name.value.0, attrs.value.0), attrs.value.1))
  }

  /** Entries as long as a marker says there is one more. */
  function ReadEntries(src: Bytes): Option<(seq<Entry>, Bytes)>
    decreases |src|
  {
    var more := ReadBool(src);
    if more.None? then None
    else if !more.value.0 then Some(([], more.value.1))
    else
      var e := ReadEntry(more.value.1);
      if e.None? then None
      else
        var es := ReadEntries(e.value.1);
        if es.None? then None else Some(([e.value.0] + es.value.0, es.value.1))
  }

  datatype Reply4 = Reply4(verf: Bytes, entries: seq<Entry>, eof: bool)

  function ReadReply(src: Bytes): Option<(Reply4, Bytes)> {
    if |src| < 8 then None
    else
      var es := ReadEntries(src[8..]);
      if es.None? then None
      else
        var eof := ReadBool(es.value.1);
        if eof.None? then None else Some((Reply4(src[..8], es.value.0, eof.value.0), eof.value.1))
  }

  /** What can be written: lengths fit 32 bits. */
  predicate Writable(e: Entry) {
    |e.name| < WORD && |e.attrs.mask| < WORD && |e.attrs.vals| < WORD
  }

  function Trim(e: Entry): Entry {
    e.(attrs := Fattr(Trimmed(e.attrs.mask), e.attrs.vals))
  }

  /** The entry without its marker. */
  function Body(e: Entry): Bytes {
    U64(e.cookie) + (Opaque(e.name) + FattrXdr(e.attrs))
  }

  lemma EntryTrip(e: Entry, rest: Bytes)
    requires Writable(e)
    ensures ReadEntry(Body(e) + rest) == Some((Trim(e), rest))
  {
    var attrs := FattrXdr(e.attrs) + rest;
    var name := Opaque(e.name) + attrs;
    Assoc(Opaque(e.name), FattrXdr(e.attrs), rest);
    Assoc(U64(e.cookie), Opaque(e.name) + FattrXdr(e.attrs), rest);
    U64Trip(e.cookie, name);
    OpaqueTrip(e.name, attrs);
    FattrTrip(e.attrs, rest);
  }

  lemma ItemIsMarkedBody(e: Entry)
    ensures ItemXdr(e) == Bool(true) + Body(e)
  {
    Assoc(Bool(true) + U64(e.cookie), Opaque(e.name), FattrXdr(e.attrs));
    Assoc(Bool(true), U64(e.cookie), Opaque(e.name) + FattrXdr(e.attrs));
  }

  function TrimAll(es: seq<Entry>): (r: seq<Entry>) {
    if es == [] then [] else TrimAll(es[..|es| - 1]) + [Trim(es[|es| - 1])]
  }

  /** An entry in front of a list is read first. */
  lemma OneMoreEntry(e: Entry, tail: Bytes, more: seq<Entry>, rest: Bytes)
    requires Writable(e) && ReadEntries(tail) == Some((more, rest))
    ensures ReadEntries(ItemXdr(e) + tail) == Some(([Trim(e)] + more, rest))
  {
    ItemIsMarkedBody(e);
    Assoc(Bool(true), Body(e), tail);
    BoolTrip(true, Body(e) + tail);
    EntryTrip(e, tail);
  }

  lemma PeelLast(es: seq<Entry>, tail: Bytes)
    requires es != []
    ensures ItemsXdr(es) + tail == ItemsXdr(es[..|es| - 1]) + (ItemXdr(es[|es| - 1]) + tail)
  {
    Assoc(ItemsXdr(es[..|es| - 1]), ItemXdr(es[|es| - 1]), tail);
  }

  /** Entries in front of a list are read in order. */
  lemma {:induction false} EntriesTrip(es: seq<Entry>, tail: Bytes, more: seq<Entry>, rest: Bytes)
    requires (forall i | 0 <= i < |es| :: Writable(es[i])) && ReadEntries(tail) == Some((more, rest))
    ensures ReadEntries(ItemsXdr(es) + tail) == Some((TrimAll(es) + more, rest))
    decreases |es|
  {
    if es == [] {
      Empty(tail);
      Nothing(more);
    } else {
      var front, e := es[..|es| - 1], es[|es| - 1];
      OneMoreEntry(e, tail, more, rest);
      EntriesTrip(front, ItemXdr(e) + tail, [Trim(e)] + more, rest);
      PeelLast(es, tail);
      Append(TrimAll(front), Trim(e), more);
    }
  }

  lemma Append<T>(front: seq<T>, e: T, more: seq<T>)
    ensures front + ([e] + more) == (front + [e]) + more
  {
  }

  lemma Nothing<T>(more: seq<T>)
    ensures [] + more == more
  {
  }

  lemma NothingAfter<T>(front: seq<T>)
    ensures front + [] == front
  {
  }

  lemma Empty(tail: Bytes)
    ensures ItemsXdr([]) + tail == tail && NamesXdr([]) + tail == tail
  {
  }

  /** A READDIR reply comes back: verifier, entries in order with cookie, name and attributes, and end flag. */
  lemma ReplyTrip(verf: Bytes, es: seq<Entry>, eof: bool, rest: Bytes)
    requires |verf| == 8 && forall i | 0 <= i < |es| :: Writable(es[i])
    ensures ReadReply(ResokXdr(verf, es, eof) + rest) == Some((Reply4(verf, TrimAll(es), eof), rest))
  {
    var tail := Bool(eof) + rest;
    FourParts(verf, ItemsXdr(es), Bool(false), Bool(eof), rest);
    NoEntries(tail);
    EntriesTrip(es, Bool(false) + tail, [], tail);
    NothingAfter(TrimAll(es));
    BoolTrip(eof, rest);
    ReplyParts(ResokXdr(verf, es, eof) + rest, verf, ItemsXdr(es) + (Bool(false) + tail), TrimAll(es), eof, tail, rest);
  }

  lemma NoEntries(tail: Bytes)
    ensures ReadEntries(Bool(false) + tail) == Some(([], tail))
  {
    BoolTrip(false, tail);
  }

  lemma FourParts(a: Bytes, b: Bytes, c: Bytes, d: Bytes, rest: Bytes)
    ensures (a + b + c + d) + rest == a + (b + (c + (d + rest)))
  {
    Assoc(a + b + c, d, rest);
    Assoc(a + b, c, d + rest);
    Assoc(a, b, c + (d + rest));
  }

  lemma ReplyParts(src: Bytes, verf: Bytes, after: Bytes, es: seq<Entry>, eof: bool, tail: Bytes, rest: Bytes)
    requires src == verf + after && |verf| == 8
    requires ReadEntries(after) == Some((es, tail)) && ReadBool(tail) == Some((eof, rest))
    ensures ReadReply(src) == Some((Reply4(verf, es, eof), rest))
  {
    assert src[..8] == verf && src[8..] == after;
  }

  // ---- LISTXATTRS ----

  function ReadNames(src: Bytes, count: nat): Option<(seq<Name>, Bytes)>
    decreases count
  {
    if count == 0 then Some(([], src))
    else
      var name := ReadOpaque(src);
      if name.None? then None
      else
        var names := ReadNames(name.value.1, count - 1);
        if names.None? then None else Some(([name.value.0] + names.value.0, names.value.1))
  }

  function ReadXattrPage(src: Bytes): Option<(XattrPage, Bytes)> {
    var cookie := ReadU64(src);
    if cookie.None? then None
    else
      var count := ReadU32(cookie.value.1);
      if count.None? then None
      else
        var names := ReadNames(count.value.1, count.value.0);
        if names.None? then None
        else
          var eof := ReadBool(names.value.1);
          if eof.None? then None else Some((XattrPage(cookie.value.0, names.value.0, eof.value.0), eof.value.1))
  }

  lemma PeelLastName(names: seq<Name>, tail: Bytes)
    requires names != []
    ensures NamesXdr(names) + tail == NamesXdr(names[..|names| - 1]) + (Opaque(names[|names| - 1]) + tail)
  {
    Assoc(NamesXdr(names[..|names| - 1]), Opaque(names[|names| - 1]), tail);
  }

  /** Names in front of others are read in order. */
  lemma {:induction false} NamesTrip(names: seq<Name>, src: Bytes, tail: Bytes, more: seq<Name>, rest: Bytes)
    requires forall i | 0 <= i < |names| :: |names[i]| < WORD
    requires src == NamesXdr(names) + tail && ReadNames(tail, |more|) == Some((more, rest))
    ensures ReadNames(src, |names + more|) == Some((names + more, rest))
    decreases |names|
  {
    if names == [] {
      Empty(tail);
      Nothing(more);
    } else {
      var front, n := names[..|names| - 1], names[|names| - 1];
      OneMoreName(n, tail, more, rest);
      PeelLastName(names, tail);
      NamesTrip(front, src, Opaque(n) + tail, [n] + more, rest);
      Rejoin(names, more);
    }
  }

  lemma Rejoin(names: seq<Name>, more: seq<Name>)
    requires names != []
    ensures var front, n := names[..|names| - 1], names[|names| - 1];
            front + ([n] + more) == names + more
  {
  }

  lemma OneMoreName(n: Name, tail: Bytes, more: seq<Name>, rest: Bytes)
    requires |n| < WORD && ReadNames(tail, |more|) == Some((more, rest))
    ensures ReadNames(Opaque(n) + tail, |[n] + more|) == Some(([n] + more, rest))
  {
    OpaqueTrip(n, tail);
  }

  /** A LISTXATTRS page comes back: cookie, names in order and end flag. */
  lemma XattrPageTrip(page: XattrPage, rest: Bytes)
    requires |page.names| < WORD && forall i | 0 <= i < |page.names| :: |page.names[i]| < WORD
    ensures ReadXattrPage(XattrPageXdr(page) + rest) == Some((page, rest))
  {
    var names := NamesXdr(page.names) + (Bool(page.eof) + rest);
    var count := U32(|page.names|) + names;
    Assoc(U64(page.cookie) + (U32(|page.names|) + NamesXdr(page.names)), Bool(page.eof), rest);
    Assoc(U64(page.cookie), U32(|page.names|) + NamesXdr(page.names), Bool(page.eof) + rest);
    Assoc(U32(|page.names|), NamesXdr(page.names), Bool(page.eof) + rest);
    U64Trip(page.cookie, count);
    U32Trip(|page.names|, names);
    NamesTrip(page.names, names, Bool(page.eof) + rest, [], Bool(page.eof) + rest);
    NothingAfter(page.names);
    BoolTrip(page.eof, rest);
  }
}
