/**
  READDIR and LISTXATTRS: how many entries go in a page, what the page weighs on the wire, and
  what a client gets that resumes from each cookie until the end.
 */
module Readdir {
  import opened NfsTypes
  import opened Xdr

  datatype Entry = Entry(cookie: u64, name: Name, attrs: Fattr)

  // ---- The server's own length formulas ----

  function OpaqueLen(len: nat): nat {
    4 + len + Pad(len)
  }

  function FattrLen(a: Fattr): nat {
    4 + 4 * |a.mask| + OpaqueLen(|a.vals|)
  }

  /** What counts against `dircount`: cookie and name. */
  function DirInfoLen(e: Entry): nat {
    8 + OpaqueLen(|e.name|)
  }

  /** What counts against `maxcount`: the list marker and the whole entry. */
  function ItemLen(e: Entry): nat {
    4 + (8 + OpaqueLen(|e.name|) + FattrLen(e.attrs))
  }

  function ItemsLen(es: seq<Entry>): nat {
    if es == [] then 0 else ItemsLen(es[..|es| - 1]) + ItemLen(es[|es| - 1])
  }

  function DirLen(es: seq<Entry>): nat {
    if es == [] then 0 else DirLen(es[..|es| - 1]) + DirInfoLen(es[|es| - 1])
  }

  function ResokLen(es: seq<Entry>): nat {
    8 + ItemsLen(es) + 4 + 4
  }

  // ---- The encoder's output ----

  function ItemXdr(e: Entry): Bytes {
    Bool(true) + U64(e.cookie) + Opaque(e.name) + FattrXdr(e.attrs)
  }

  function ItemsXdr(es: seq<Entry>): Bytes {
    if es == [] then [] else ItemsXdr(es[..|es| - 1]) + ItemXdr(es[|es| - 1])
  }

  function ResokXdr(verf: Bytes, es: seq<Entry>, eof: bool): Bytes {
    verf + ItemsXdr(es) + Bool(false) + Bool(eof)
  }

  method PutResok(w: Writer, verf: Bytes, es: seq<Entry>, eof: bool)
    modifies w
    ensures w.out == old(w.out) + ResokXdr(verf, es, eof)
  {
    w.out := w.out + verf;
    for i := 0 to |es|
      invariant w.out == old(w.out) + verf + ItemsXdr(es[..i])
    {
      assert es[..i + 1][..i] == es[..i];
      ghost var before := w.out;
      PutItem(w, es[i]);
      Assoc(old(w.out) + verf, ItemsXdr(es[..i]), ItemXdr(es[i]));
    }
    assert es[..|es|] == es;
    w.PutBool(false);
    w.PutBool(eof);
    Assoc(old(w.out), verf, ItemsXdr(es));
    Assoc(old(w.out), verf + ItemsXdr(es), Bool(false));
    Assoc(old(w.out), verf + ItemsXdr(es) + Bool(false), Bool(eof));
  }

  method PutItem(w: Writer, e: Entry)
    modifies w
    ensures w.out == old(w.out) + ItemXdr(e)
  {
    w.PutBool(true);
    w.PutU64(e.cookie);
    w.PutOpaque(e.name);
    w.PutFattr(e.attrs);
    Assoc(old(w.out), Bool(true), U64(e.cookie));
    Assoc(old(w.out), Bool(true) + U64(e.cookie), Opaque(e.name));
    Assoc(old(w.out), Bool(true) + U64(e.cookie) + Opaque(e.name), FattrXdr(e.attrs));
  }

  /** No bitmap ends in a zero word, as holds of every bitmap built with Set. */
  ghost predicate MasksTrimmed(es: seq<Entry>) {
    forall i | 0 <= i < |es| :: Trimmed(es[i].attrs.mask) == es[i].attrs.mask
  }

  lemma ItemLenExact(e: Entry)
    ensures |ItemXdr(e)| <= ItemLen(e)
    ensures |ItemXdr(e)| == ItemLen(e) <==> Trimmed(e.attrs.mask) == e.attrs.mask
  {
    TrimmedLen(e.attrs.mask);
  }

  /** The formulas never fall short of the encoder, and are exact if and only if every bitmap is trimmed. */
  lemma {:induction false} ItemsLenExact(es: seq<Entry>)
    ensures |ItemsXdr(es)| <= ItemsLen(es)
    ensures |ItemsXdr(es)| == ItemsLen(es) <==> MasksTrimmed(es)
  {
    if es != [] {
      var front, e := es[..|es| - 1], es[|es| - 1];
      ItemsLenExact(front);
      ItemLenExact(e);
      MasksSplit(es);
      ItemsSplit(es);
    }
  }

  lemma ItemsSplit(es: seq<Entry>)
    requires es != []
    ensures |ItemsXdr(es)| == |ItemsXdr(es[..|es| - 1])| + |ItemXdr(es[|es| - 1])|
  {
  }

  lemma MasksSplit(es: seq<Entry>)
    requires es != []
    ensures var e := es[|es| - 1];
            MasksTrimmed(es) <==> MasksTrimmed(es[..|es| - 1]) && Trimmed(e.attrs.mask) == e.attrs.mask
  {
    var front := es[..|es| - 1];
    assert forall i | 0 <= i < |front| :: es[i] == front[i];
  }

  lemma TrimmedLen(words: seq<u32>)
    ensures |Trimmed(words)| <= |words| && (|Trimmed(words)| == |words| <==> Trimmed(words) == words)
  {
  }

  lemma ResokLenExact(verf: Bytes, es: seq<Entry>, eof: bool)
    requires |verf| == 8
    ensures |ResokXdr(verf, es, eof)| <= ResokLen(es)
    ensures |ResokXdr(verf, es, eof)| == ResokLen(es) <==> MasksTrimmed(es)
  {
    ItemsLenExact(es);
  }

  // ---- One page ----

  /** What the server learns of one entry: it is shown, skipped, dropped beforehand, or fails the whole request. */
  datatype Candidate = Keep(entry: Entry) | Skip | Drop | Fail(status: Status)

  /** What is left of the backend's page once the server has dropped the children it cannot register. */
  function Present(cs: seq<Candidate>): (present: seq<Candidate>)
    ensures |present| <= |cs|
  {
    if cs == [] then []
    else if cs[|cs| - 1].Drop? then Present(cs[..|cs| - 1])
    else Present(cs[..|cs| - 1]) + [cs[|cs| - 1]]
  }

  method DropRetired(cs: seq<Candidate>) returns (present: seq<Candidate>)
    ensures present == Present(cs) && forall c | c in present :: !c.Drop?
  {
    present := [];
    for i := 0 to |cs|
      invariant present == Present(cs[..i]) && forall c | c in present :: !c.Drop?
    {
      assert cs[..i + 1][..i] == cs[..i];
      if cs[i].Drop? {
        continue;
      }
      present := present + [cs[i]];
    }
    assert cs[..|cs|] == cs;
  }

  datatype Limits = Limits(dircount: u32, maxcount: u32) {
    /** A dircount of zero is no limit. */
    predicate TooManyNames(bytes: nat) {
      dircount != 0 && bytes > dircount
    }
  }

  /** How many candidates the page takes, and the entries on it. */
  function Fill(cs: seq<Candidate>, i: nat, page: seq<Entry>, limits: Limits): (r: Result<(nat, seq<Entry>)>)
    requires i <= |cs|
    ensures r.Success? ==> i <= r.value.0 <= |cs|
    decreases |cs| - i
  {
    if i == |cs| then Success((i, page))
    else match cs[i]
      case Skip => Fill(cs, i + 1, page, limits)
      case Drop => Fill(cs, i + 1, page, limits)
      case Fail(status) => Failure(status)
      case Keep(e) =>
        var full := ResokLen(page) + ItemLen(e) > limits.maxcount;
        if page != [] && (full || limits.TooManyNames(DirLen(page) + DirInfoLen(e))) then Success((i, page))
        else if page == [] && full then Failure(Toosmall)
        else Fill(cs, i + 1, page + [e], limits)
  }

  /** The page loop, with its running totals. */
  method FillPage(cs: seq<Candidate>, limits: Limits) returns (r: Result<seq<Entry>>)
    ensures var spec := Fill(cs, 0, [], limits);
            r == if spec.Success? then Success(spec.value.1) else Failure(spec.status)
  {
    var page: seq<Entry> := [];
    var dirBytes, total: nat := 0, 16;
    for i := 0 to |cs|
      invariant dirBytes == DirLen(page) && total == ResokLen(page)
      invariant Fill(cs, 0, [], limits) == Fill(cs, i, page, limits)
    {
      match cs[i]
      case Skip => continue;
      case Drop => continue;
      case Fail(status) => return Failure(status);
      case Keep(e) =>
        var manyNames := limits.TooManyNames(dirBytes + DirInfoLen(e));
        var full := total + ItemLen(e) > limits.maxcount;
        if page != [] && (manyNames || full) {
          return Success(page);
        }
        if page == [] && full {
          return Failure(Toosmall);
        }
        dirBytes := dirBytes + DirInfoLen(e);
        total := total + ItemLen(e);
        assert (page + [e])[..|page|] == page;
        page := page + [e];
    }
    return Success(page);
  }

  function Kept(cs: seq<Candidate>): (es: seq<Entry>)
    ensures |es| <= |cs|
  {
    if cs == [] then []
    else Kept(cs[..|cs| - 1]) + (match cs[|cs| - 1] case Keep(e) => [e] case _ => [])
  }

  /** A page holds, in order, every entry that is not skipped among the candidates it takes, and it fits. */
  lemma {:induction false} FillShape(cs: seq<Candidate>, i: nat, page: seq<Entry>, limits: Limits)
    requires i <= |cs| && page == Kept(cs[..i]) && ResokLen(page) <= limits.maxcount
    ensures var r := Fill(cs, i, page, limits);
            r.Success? ==> && i <= r.value.0 <= |cs| && r.value.1 == Kept(cs[..r.value.0])
                           && ResokLen(r.value.1) <= limits.maxcount
                           && (r.value.0 < |cs| ==> cs[r.value.0].Keep? && r.value.1 != [])
    decreases |cs| - i
  {
    if i < |cs| {
      KeptOneMore(cs, i);
      if cs[i].Skip? || cs[i].Drop? {
        FillShape(cs, i + 1, page, limits);
      } else if cs[i].Keep? {
        var e := cs[i].entry;
        LenOneMore(page, e);
        if ResokLen(page) + ItemLen(e) <= limits.maxcount {
          FillShape(cs, i + 1, page + [e], limits);
        }
      }
    }
  }

  /** Beyond its first entry a page respects `dircount`, and it stops early only where a limit says so. */
  /** A limit on names counts if it is not zero: eight bytes of cookie and the encoded name for each entry. */
  lemma NamesLimit(limits: Limits, page: seq<Entry>)
    ensures limits.TooManyNames(DirLen(page)) <==> limits.dircount > 0 && NamesBytes(page) > limits.dircount
  {
    NamesCounted(page);
  }

  function NamesBytes(page: seq<Entry>): nat {
    if page == [] then 0 else |U64(page[0].cookie)| + |Opaque(page[0].name)| + NamesBytes(page[1..])
  }

  lemma {:induction false} NamesCounted(page: seq<Entry>)
    ensures DirLen(page) == NamesBytes(page)
    decreases |page|
  {
    if page != [] {
      var front, e := page[..|page| - 1], page[|page| - 1];
      NamesCounted(front);
      NamesAppend(front, e);
      assert page == front + [e];
    }
  }

  lemma {:induction false} NamesAppend(front: seq<Entry>, e: Entry)
    ensures NamesBytes(front + [e]) == NamesBytes(front) + DirInfoLen(e)
    decreases |front|
  {
    if front == [] {
      assert front + [e] == [e] && [e][1..] == [];
    } else {
      NamesAppend(front[1..], e);
      assert (front + [e])[1..] == front[1..] + [e];
    }
  }

  lemma {:induction false} FillRespectsLimits(cs: seq<Candidate>, i: nat, page: seq<Entry>, limits: Limits)
    requires i <= |cs| && (|page| > 1 ==> !limits.TooManyNames(DirLen(page)))
    ensures var r := Fill(cs, i, page, limits);
            r.Success? ==> && (|r.value.1| > 1 ==> !limits.TooManyNames(DirLen(r.value.1)))
                           && (r.value.0 < |cs| ==>
                                 && cs[r.value.0].Keep?
                                 && var e := cs[r.value.0].entry;
                                    ResokLen(r.value.1) + ItemLen(e) > limits.maxcount
                                    || limits.TooManyNames(DirLen(r.value.1) + DirInfoLen(e)))
    decreases |cs| - i
  {
    if i < |cs| {
      if cs[i].Skip? || cs[i].Drop? {
        FillRespectsLimits(cs, i + 1, page, limits);
      } else if cs[i].Keep? {
        var e := cs[i].entry;
        DirLenOneMore(page, e);
        if page == [] || !limits.TooManyNames(DirLen(page) + DirInfoLen(e)) {
          FillRespectsLimits(cs, i + 1, page + [e], limits);
        }
      }
    }
  }

  lemma DirLenOneMore(page: seq<Entry>, e: Entry)
    ensures DirLen(page + [e]) == DirLen(page) + DirInfoLen(e)
  {
    assert (page + [e])[..|page|] == page;
  }

  lemma KeptOneMore(cs: seq<Candidate>, i: nat)
    requires i < |cs|
    ensures Kept(cs[..i + 1]) == if cs[i].Keep? then Kept(cs[..i]) + [cs[i].entry] else Kept(cs[..i])
  {
    assert cs[..i + 1][..i] == cs[..i];
  }

  lemma LenOneMore(page: seq<Entry>, e: Entry)
    ensures ResokLen(page + [e]) == ResokLen(page) + ItemLen(e)
  {
    assert (page + [e])[..|page|] == page;
  }

  // ---- A directory, and one request ----

  /** What an entry of an unchanged directory looks like to a request. */
  datatype View =
    | Visible(attrs: Fattr)
    | Hidden                       // skipped by the page loop, and counted for eof
    | Omitted                      // fenced: dropped from the backend's page, and not counted
    | Broken(status: Status)

  datatype Item = Item(name: Name, view: View)

  /** Items in the order of the backend; `paged` unless the directory is of named attributes. */
  datatype Dir = Dir(items: seq<Item>, change: u64, paged: bool)

  datatype Request = Request(cookie: u64, verf: u64, limits: Limits)

  datatype Reply = Reply(entries: seq<Entry>, eof: bool)

  /** The position a cookie stands for: cookies count from 3, and 0 is the start. */
  function Start(cookie: u64): nat {
    if cookie <= 2 then 0 else cookie - 2
  }

  /** How many entries the backend of a paged directory is asked for. */
  function Most(maxcount: u32): (most: nat)
    ensures most >= 1
  {
    if maxcount / 128 == 0 then 1 else maxcount / 128
  }

  /** Where the backend's answer ends. */
  function End(dir: Dir, start: nat, maxcount: u32): nat {
    if start >= |dir.items| then start
    else if dir.paged && start + Most(maxcount) < |dir.items| then start + Most(maxcount)
    else |dir.items|
  }

  /** The candidates from `start` to `end`, each with its cookie. */
  function Candidates(dir: Dir, start: nat, end: nat): (cs: seq<Candidate>)
    requires start <= end && (start < end ==> end <= |dir.items|) && |dir.items| + 3 <= U64_MAX
    ensures |cs| == end - start
  {
    seq(end - start, i requires 0 <= i < end - start => CandidateAt(dir, start + i))
  }

  function CandidateAt(dir: Dir, k: nat): Candidate
    requires k < |dir.items| && |dir.items| + 3 <= U64_MAX
  {
    match dir.items[k].view
    case Visible(attrs) => Keep(Entry(k + 3, dir.items[k].name, attrs))
    case Hidden => Skip
    case Omitted => Drop
    case Broken(status) => Fail(status)
  }

  /** The checks on the request, then a page; it is the last one if nothing was skipped or left over. */
  function Readdir(dir: Dir, req: Request): Result<Reply>
    requires |dir.items| + 3 <= U64_MAX
  {
    if req.cookie in {1, 2} then Failure(BadCookie)
    else if req.limits.maxcount == 0 then Failure(Toosmall)
    else if req.cookie != 0 && req.verf != dir.change then Failure(NotSame)
    else
      var start := Start(req.cookie);
      var end := End(dir, start, req.limits.maxcount);
      if ResokLen([]) > req.limits.maxcount then Failure(Toosmall)
      else
        var cs := Present(Candidates(dir, start, end));
        var r := Fill(cs, 0, [], req.limits);
        if r.Failure? then Failure(r.status)
        else Success(Reply(r.value.1, end >= |dir.items| && |r.value.1| == |cs|))
  }

  /** The outcome and the page of a fill, without the position it stopped at. */
  function PageOf(r: Result<(nat, seq<Entry>)>): Result<seq<Entry>> {
    if r.Failure? then Failure(r.status) else Success(r.value.1)
  }

  lemma {:induction false} FillPrefix(cs: seq<Candidate>, c: Candidate, i: nat, page: seq<Entry>, limits: Limits)
    requires i <= |cs|
    ensures Fill(cs + [c], i, page, limits)
         == var r := Fill(cs, i, page, limits);
            if r.Success? && r.value.0 == |cs| then Fill(cs + [c], |cs|, r.value.1, limits) else r
    decreases |cs| - i
  {
    if i < |cs| {
      assert (cs + [c])[i] == cs[i];
      if cs[i].Skip? || cs[i].Drop? {
        FillPrefix(cs, c, i + 1, page, limits);
      } else if cs[i].Keep? {
        FillPrefix(cs, c, i + 1, page + [cs[i].entry], limits);
      }
    }
  }

  /** Dropping children before the page loop changes neither its outcome nor its page. */
  lemma {:induction false} FillPresent(cs: seq<Candidate>, limits: Limits)
    ensures var all, present := Fill(cs, 0, [], limits), Fill(Present(cs), 0, [], limits);
            && PageOf(all) == PageOf(present)
            && (all.Success? ==> (all.value.0 == |cs| <==> present.value.0 == |Present(cs)|))
    decreases |cs|
  {
    if cs != [] {
      var front, c := cs[..|cs| - 1], cs[|cs| - 1];
      assert cs == front + [c];
      FillPresent(front, limits);
      FillPrefix(front, c, 0, [], limits);
      if !c.Drop? {
        FillPrefix(Present(front), c, 0, [], limits);
      }
    }
  }

  /** Every successful reply fits the client's limit as the encoder writes it. */
  lemma ReplyFits(dir: Dir, req: Request, verf: Bytes)
    requires |dir.items| + 3 <= U64_MAX && |verf| == 8
    ensures var r := Readdir(dir, req);
            r.Success? ==> |ResokXdr(verf, r.value.entries, r.value.eof)| <= req.limits.maxcount
  {
    var r := Readdir(dir, req);
    if r.Success? {
      var start := Start(req.cookie);
      var cs := Candidates(dir, start, End(dir, start, req.limits.maxcount));
      FillShape(cs, 0, [], req.limits);
      FillPresent(cs, req.limits);
      ResokLenExact(verf, r.value.entries, r.value.eof);
    }
  }

  // ---- Listing a directory page by page ----

  function VisibleEntries(dir: Dir, from: nat, to: nat): (es: seq<Entry>)
    requires from <= to && (from < to ==> to <= |dir.items|) && |dir.items| + 3 <= U64_MAX
  {
    Kept(Candidates(dir, from, to))
  }

  datatype Listing =
    | Listed(entries: seq<Entry>)            // the server said eof
    | Refused(status: Status)
    | Stuck(cookie: u64)                     // an empty page that is not the last

  /** The cookie to resume from after a page. */
  function NextCookie(reply: Reply): u64
    requires reply.entries != []
  {
    reply.entries[|reply.entries| - 1].cookie
  }

  /** A client that keeps asking from the last cookie it got, with any limits at each call. */
  function List(dir: Dir, cookie: u64, calls: nat, limits: nat -> Limits): Listing
    requires |dir.items| + 3 <= U64_MAX && cookie !in {1, 2}
    decreases |dir.items| + 3 - cookie
  {
    var r := Readdir(dir, Request(cookie, dir.change, limits(calls)));
    if r.Failure? then Refused(r.status)
    else if r.value.eof then Listed(r.value.entries)
    else if r.value.entries == [] then Stuck(cookie)
    else
      PageAdvances(dir, cookie, limits(calls));
      match List(dir, NextCookie(r.value), calls + 1, limits)
      case Listed(rest) => Listed(r.value.entries + rest)
      case other => other
  }

  /** A page that is not empty moves the cookie past every entry on it. */
  lemma PageAdvances(dir: Dir, cookie: u64, limits: Limits)
    requires |dir.items| + 3 <= U64_MAX && cookie !in {1, 2}
    ensures var r := Readdir(dir, Request(cookie, dir.change, limits));
            r.Success? && r.value.entries != [] ==>
              && Start(cookie) + 3 <= NextCookie(r.value) < |dir.items| + 3
              && r.value.entries == VisibleEntries(dir, Start(cookie), Start(NextCookie(r.value)))
              && dir.items[NextCookie(r.value) - 3].view.Visible?
              && Start(NextCookie(r.value)) <= End(dir, Start(cookie), limits.maxcount)
  {
    var r := Readdir(dir, Request(cookie, dir.change, limits));
    var start := Start(cookie);
    if r.Success? && r.value.entries != [] {
      var upTo := PageShown(dir, start, End(dir, start, limits.maxcount), limits);
      UpToLastKept(dir, start, upTo);
    }
  }

  /** A page shows what is visible in the window up to some item, although dropped children do not reach the page loop. */
  lemma PageShown(dir: Dir, start: nat, end: nat, limits: Limits) returns (upTo: nat)
    requires |dir.items| + 3 <= U64_MAX && start <= end && (start < end ==> end <= |dir.items|)
    requires ResokLen([]) <= limits.maxcount && Fill(Present(Candidates(dir, start, end)), 0, [], limits).Success?
    ensures start <= upTo <= end
    ensures Fill(Present(Candidates(dir, start, end)), 0, [], limits).value.1 == VisibleEntries(dir, start, upTo)
  {
    var cs := Candidates(dir, start, end);
    FillShape(cs, 0, [], limits);
    FillPresent(cs, limits);
    var n := Fill(cs, 0, [], limits).value.0;
    assert cs[..n] == Candidates(dir, start, start + n);
    upTo := start + n;
  }

  /** Dropping the skipped candidates at the end changes nothing. */
  lemma {:induction false} UpToLastKept(dir: Dir, start: nat, end: nat)
    requires start <= end && (start < end ==> end <= |dir.items|) && |dir.items| + 3 <= U64_MAX
    requires VisibleEntries(dir, start, end) != []
    ensures var es := VisibleEntries(dir, start, end);
            var last := es[|es| - 1].cookie;
            && start + 3 <= last < end + 3 && es == VisibleEntries(dir, start, last - 2)
            && dir.items[last - 3].view.Visible?
    decreases end
  {
    var cs := Candidates(dir, start, end);
    var front := Candidates(dir, start, end - 1);
    assert cs[..|cs| - 1] == front;
    var c := cs[|cs| - 1];
    assert c == CandidateAt(dir, end - 1);
    if c.Keep? {
      assert Kept(cs) == Kept(front) + [c.entry];
    } else {
      assert Kept(cs) == Kept(front);
      UpToLastKept(dir, start, end - 1);
    }
  }

  lemma {:induction false} VisibleJoin(dir: Dir, a: nat, b: nat, c: nat)
    requires a <= b <= c <= |dir.items| && |dir.items| + 3 <= U64_MAX
    ensures VisibleEntries(dir, a, b) + VisibleEntries(dir, b, c) == VisibleEntries(dir, a, c)
    decreases c
  {
    if b < c {
      VisibleJoin(dir, a, b, c - 1);
      var whole, part := Candidates(dir, a, c), Candidates(dir, b, c);
      assert whole[..|whole| - 1] == Candidates(dir, a, c - 1) && part[..|part| - 1] == Candidates(dir, b, c - 1);
      assert whole[|whole| - 1] == part[|part| - 1];
    }
  }

  /** Every candidate that is not dropped gives an entry. */
  ghost predicate NoneSkipped(cs: seq<Candidate>) {
    forall k | 0 <= k < |cs| :: cs[k].Keep? || cs[k].Drop?
  }

  lemma {:induction false} PresentKept(cs: seq<Candidate>)
    ensures |Kept(cs)| <= |Present(cs)|
    ensures |Kept(cs)| == |Present(cs)| <==> NoneSkipped(cs)
  {
    if cs != [] {
      var front := cs[..|cs| - 1];
      PresentKept(front);
      assert forall k | 0 <= k < |front| :: front[k] == cs[k];
    }
  }

  lemma {:induction false} PresentMonotone(cs: seq<Candidate>, n: nat)
    requires n <= |cs|
    ensures |Present(cs[..n])| <= |Present(cs)|
    ensures n < |cs| && cs[n].Keep? ==> |Present(cs[..n])| < |Present(cs)|
    decreases |cs|
  {
    if n < |cs| {
      var front := cs[..|cs| - 1];
      assert cs[..n] == front[..n];
      PresentMonotone(front, n);
    } else {
      assert cs[..n] == cs;
    }
  }

  /** A last page shows every item it covers that is not omitted, up to the end. */
  lemma LastPage(dir: Dir, cookie: u64, limits: Limits)
    requires |dir.items| + 3 <= U64_MAX && cookie !in {1, 2}
    ensures var r := Readdir(dir, Request(cookie, dir.change, limits));
            var start := Start(cookie);
            r.Success? && r.value.eof && start <= |dir.items| ==>
              && End(dir, start, limits.maxcount) == |dir.items|
              && r.value.entries == VisibleEntries(dir, start, |dir.items|)
              && (forall k | start <= k < |dir.items| :: dir.items[k].view.Visible? || dir.items[k].view.Omitted?)
  {
    var r := Readdir(dir, Request(cookie, dir.change, limits));
    var start := Start(cookie);
    if r.Success? && r.value.eof && start <= |dir.items| {
      var cs := Candidates(dir, start, |dir.items|);
      FillShape(cs, 0, [], limits);
      FillPresent(cs, limits);
      var n := Fill(cs, 0, [], limits).value.0;
      PresentKept(cs[..n]);
      PresentMonotone(cs, n);
      assert n == |cs|;
      assert cs[..n] == cs;
      KeptIsVisible(dir, start);
    }
  }

  lemma KeptIsVisible(dir: Dir, start: nat)
    requires start <= |dir.items| && |dir.items| + 3 <= U64_MAX
    requires NoneSkipped(Candidates(dir, start, |dir.items|))
    ensures forall k | start <= k < |dir.items| :: dir.items[k].view.Visible? || dir.items[k].view.Omitted?
  {
    var cs := Candidates(dir, start, |dir.items|);
    forall k | start <= k < |dir.items|
      ensures dir.items[k].view.Visible? || dir.items[k].view.Omitted?
    {
      assert cs[k - start] == CandidateAt(dir, k);
    }
  }

  /** When the server says eof, the client has every visible entry exactly once, in order, whatever the limits. */
  lemma {:induction false} ListedIsComplete(dir: Dir, cookie: u64, calls: nat, limits: nat -> Limits)
    requires |dir.items| + 3 <= U64_MAX && cookie !in {1, 2} && Start(cookie) <= |dir.items|
    ensures var l := List(dir, cookie, calls, limits);
            l.Listed? ==> l.entries == VisibleEntries(dir, Start(cookie), |dir.items|)
    decreases |dir.items| + 3 - cookie
  {
    var r := Readdir(dir, Request(cookie, dir.change, limits(calls)));
    LastPage(dir, cookie, limits(calls));
    if r.Success? && !r.value.eof && r.value.entries != [] {
      PageAdvances(dir, cookie, limits(calls));
      var next := NextCookie(r.value);
      ListedIsComplete(dir, next, calls + 1, limits);
      VisibleJoin(dir, Start(cookie), Start(next), |dir.items|);
    }
  }

  ghost predicate AllVisible(dir: Dir) {
    forall k | 0 <= k < |dir.items| :: dir.items[k].view.Visible?
  }

  ghost predicate NoneBroken(dir: Dir) {
    forall k | 0 <= k < |dir.items| :: !dir.items[k].view.Broken?
  }

  /** A page of candidates fails only because the first entry to show does not fit. */
  lemma {:induction false} FillFailsSmall(cs: seq<Candidate>, i: nat, page: seq<Entry>, limits: Limits)
    requires i <= |cs| && forall k | 0 <= k < |cs| :: !cs[k].Fail?
    ensures var r := Fill(cs, i, page, limits);
            && (r.Failure? ==> r.status == Toosmall)
            && (r.Success? && (page != [] || exists k | i <= k < |cs| :: cs[k].Keep?) ==> r.value.1 != [])
    decreases |cs| - i
  {
    if i < |cs| {
      if cs[i].Skip? || cs[i].Drop? {
        FillFailsSmall(cs, i + 1, page, limits);
      } else if cs[i].Keep? {
        FillFailsSmall(cs, i + 1, page + [cs[i].entry], limits);
      }
    }
  }

  /** One call: it is refused as too small, or it ends, or it shows something, or it is blind. */
  lemma PageOutcome(dir: Dir, cookie: u64, limits: Limits)
    requires |dir.items| + 3 <= U64_MAX && cookie !in {1, 2} && NoneBroken(dir)
    ensures var r := Readdir(dir, Request(cookie, dir.change, limits));
            && (r.Failure? ==> r.status == Toosmall)
            && (r.Success? ==> (r.value == Reply([], false) <==> Blind(dir, Start(cookie), limits.maxcount)))
  {
    var start := Start(cookie);
    var end := End(dir, start, limits.maxcount);
    var cs := Candidates(dir, start, end);
    assert forall k | 0 <= k < |cs| :: cs[k] == CandidateAt(dir, start + k);
    FillFailsSmall(cs, 0, [], limits);
    FillPresent(cs, limits);
    var r := Readdir(dir, Request(cookie, dir.change, limits));
    if r.Success? {
      FillShape(cs, 0, [], limits);
      if k :| start <= k < end && dir.items[k].view.Visible? {
        assert cs[k - start].Keep?;
      } else {
        EmptyPage(dir, start, end, limits);
      }
    }
  }

  /** A window with nothing visible in it gives an empty page, and the last one if nothing in it is hidden and it reaches the end. */
  lemma EmptyPage(dir: Dir, start: nat, end: nat, limits: Limits)
    requires |dir.items| + 3 <= U64_MAX && NoneBroken(dir) && start <= end && (start < end ==> end <= |dir.items|)
    requires forall k | start <= k < end :: !dir.items[k].view.Visible?
    ensures var cs := Candidates(dir, start, end);
            && PageOf(Fill(Present(cs), 0, [], limits)) == Success([])
            && (|Present(cs)| == 0 <==> forall k | start <= k < end :: !dir.items[k].view.Hidden?)
  {
    var cs := Candidates(dir, start, end);
    assert forall k | 0 <= k < |cs| :: cs[k] == CandidateAt(dir, start + k);
    FillsNothing(cs, 0, limits);
    FillPresent(cs, limits);
    PresentEmpty(cs);
    assert forall k | start <= k < end :: dir.items[k].view.Hidden? <==> !cs[k - start].Drop?;
  }

  lemma {:induction false} FillsNothing(cs: seq<Candidate>, i: nat, limits: Limits)
    requires i <= |cs| && forall k | 0 <= k < |cs| :: cs[k].Skip? || cs[k].Drop?
    ensures Fill(cs, i, [], limits) == Success((|cs|, []))
    decreases |cs| - i
  {
    if i < |cs| {
      FillsNothing(cs, i + 1, limits);
    }
  }

  lemma {:induction false} PresentEmpty(cs: seq<Candidate>)
    ensures |Present(cs)| == 0 <==> forall k | 0 <= k < |cs| :: cs[k].Drop?
  {
    if cs != [] {
      var front := cs[..|cs| - 1];
      PresentEmpty(front);
      assert forall k | 0 <= k < |front| :: front[k] == cs[k];
    }
  }

  /** There are entries to come, none that one call looks at is visible, and either it stops short of the end or one is hidden. */
  ghost predicate Blind(dir: Dir, start: nat, maxcount: u32) {
    var end := End(dir, start, maxcount);
    && start < |dir.items| && (forall k | start <= k < end :: !dir.items[k].view.Visible?)
    && (end == |dir.items| ==> exists k | start <= k < end :: dir.items[k].view.Hidden?)
  }

  lemma NeverBlind(dir: Dir, start: nat, maxcount: u32)
    requires AllVisible(dir)
    ensures !Blind(dir, start, maxcount)
  {
    if start < |dir.items| {
      assert dir.items[start].view.Visible?;
    }
  }

  /** With no entry hidden, a listing ends with every entry exactly once, in order, unless a limit is too small. */
  lemma {:induction false} ListsEverything(dir: Dir, cookie: u64, calls: nat, limits: nat -> Limits)
    requires |dir.items| + 3 <= U64_MAX && cookie !in {1, 2} && Start(cookie) <= |dir.items| && AllVisible(dir)
    ensures var l := List(dir, cookie, calls, limits);
            l == Refused(Toosmall) || l == Listed(VisibleEntries(dir, Start(cookie), |dir.items|))
    decreases |dir.items| + 3 - cookie
  {
    PageOutcome(dir, cookie, limits(calls));
    ListedIsComplete(dir, cookie, calls, limits);
    var r := Readdir(dir, Request(cookie, dir.change, limits(calls)));
    if r.Success? && !r.value.eof {
      NeverBlind(dir, Start(cookie), limits(calls).maxcount);
      PageAdvances(dir, cookie, limits(calls));
      ListsEverything(dir, NextCookie(r.value), calls + 1, limits);
    }
  }

  /** Those entries are the items themselves, each with the cookie of its position. */
  lemma {:induction false} EntriesAreItems(dir: Dir, n: nat)
    requires |dir.items| + 3 <= U64_MAX && AllVisible(dir) && n <= |dir.items|
    ensures var es := VisibleEntries(dir, 0, n);
            |es| == n && forall k | 0 <= k < n :: es[k] == Entry(k + 3, dir.items[k].name, dir.items[k].view.attrs)
  {
    if n > 0 {
      EntriesAreItems(dir, n - 1);
      var cs := Candidates(dir, 0, n);
      assert cs[..n - 1] == Candidates(dir, 0, n - 1);
      assert cs[n - 1] == CandidateAt(dir, n - 1);
    }
  }

  ghost predicate VisibleAfter(dir: Dir, k: nat) {
    exists j | k < j < |dir.items| :: dir.items[j].view.Visible?
  }

  /** Every hidden entry has a visible one after it. */
  ghost predicate NoHiddenTail(dir: Dir, start: nat) {
    forall k: nat | start <= k < |dir.items| && dir.items[k].view.Hidden? :: VisibleAfter(dir, k)
  }

  /** Nothing is visible in `most` entries from the i-th on, and they are not the last. */
  ghost predicate Gap(dir: Dir, i: nat, most: nat) {
    i + most < |dir.items| && forall k | i <= k < i + most :: !dir.items[k].view.Visible?
  }

  ghost predicate NoGap(dir: Dir, start: nat, most: nat) {
    forall i: nat | i >= start :: !Gap(dir, i, most)
  }

  /** With a hidden entry and none visible after it, no listing ever reaches eof. */
  lemma {:induction false} HiddenTailNeverEnds(dir: Dir, cookie: u64, calls: nat, limits: nat -> Limits, k: nat)
    requires |dir.items| + 3 <= U64_MAX && cookie !in {1, 2} && Start(cookie) <= k < |dir.items|
    requires dir.items[k].view.Hidden? && !VisibleAfter(dir, k)
    ensures !List(dir, cookie, calls, limits).Listed?
    decreases |dir.items| + 3 - cookie
  {
    LastPage(dir, cookie, limits(calls));
    var r := Readdir(dir, Request(cookie, dir.change, limits(calls)));
    if r.Success? && !r.value.eof && r.value.entries != [] {
      PageAdvances(dir, cookie, limits(calls));
      var last := NextCookie(r.value) - 3;
      assert last < k;
      HiddenTailNeverEnds(dir, NextCookie(r.value), calls + 1, limits, k);
    }
  }

  /** A call made before a gap stops before the end, and what it shows last lies before the gap. */
  lemma PageBeforeGap(dir: Dir, cookie: u64, limits: Limits, i: nat, most: nat)
    requires |dir.items| + 3 <= U64_MAX && cookie !in {1, 2} && Start(cookie) <= i
    requires dir.paged && Most(limits.maxcount) <= most && Gap(dir, i, most)
    ensures var r := Readdir(dir, Request(cookie, dir.change, limits));
            r.Success? ==> !r.value.eof && (r.value.entries != [] ==> Start(NextCookie(r.value)) <= i)
  {
    var asked := Most(limits.maxcount);
    assert End(dir, Start(cookie), limits.maxcount) == Start(cookie) + asked;
    PageAdvances(dir, cookie, limits);
  }

  /** A listing does not get past a gap as long as the most any call asks the backend for. */
  lemma {:induction false} GapNeverEnds(dir: Dir, cookie: u64, calls: nat, limits: nat -> Limits, most: nat, i: nat)
    requires |dir.items| + 3 <= U64_MAX && cookie !in {1, 2} && Start(cookie) <= i
    requires dir.paged && (forall c :: Most(limits(c).maxcount) <= most) && Gap(dir, i, most)
    ensures !List(dir, cookie, calls, limits).Listed?
    decreases |dir.items| + 3 - cookie
  {
    PageBeforeGap(dir, cookie, limits(calls), i, most);
    var r := Readdir(dir, Request(cookie, dir.change, limits(calls)));
    if r.Success? && r.value.entries != [] {
      PageAdvances(dir, cookie, limits(calls));
      GapNeverEnds(dir, NextCookie(r.value), calls + 1, limits, most, i);
    }
  }

  lemma NotBlindThere(dir: Dir, start: nat, maxcount: u32, least: nat)
    requires NoHiddenTail(dir, start) && (dir.paged ==> least <= Most(maxcount) && NoGap(dir, start, least))
    ensures !Blind(dir, start, maxcount)
  {
    var end := End(dir, start, maxcount);
    if start < |dir.items| && end == |dir.items| {
      if k :| start <= k < end && dir.items[k].view.Hidden? {
        assert VisibleAfter(dir, k);
      }
    } else if start < |dir.items| {
      assert !Gap(dir, start, least);
    }
  }

  /** Without a hidden tail, and no gap as long as the least any call asks the backend for, a listing ends. */
  lemma {:induction false} ListingEnds(dir: Dir, cookie: u64, calls: nat, limits: nat -> Limits, least: nat)
    requires |dir.items| + 3 <= U64_MAX && cookie !in {1, 2} && Start(cookie) <= |dir.items| && NoneBroken(dir)
    requires NoHiddenTail(dir, Start(cookie))
    requires dir.paged ==> (forall c :: least <= Most(limits(c).maxcount)) && NoGap(dir, Start(cookie), least)
    ensures var l := List(dir, cookie, calls, limits); l == Refused(Toosmall) || l.Listed?
    decreases |dir.items| + 3 - cookie
  {
    NotBlindThere(dir, Start(cookie), limits(calls).maxcount, least);
    PageOutcome(dir, cookie, limits(calls));
    var r := Readdir(dir, Request(cookie, dir.change, limits(calls)));
    if r.Success? && !r.value.eof {
      PageAdvances(dir, cookie, limits(calls));
      ListingEnds(dir, NextCookie(r.value), calls + 1, limits, least);
    }
  }

  /**
    A directory is listed to the end if and only if every hidden entry has a visible one after it
    and, for a paged directory and one `maxcount` throughout, no gap before the end, of hidden or
    omitted entries, is as long as what one call asks the backend for.
   */
  lemma ListingEndsIff(dir: Dir, cookie: u64, calls: nat, limits: nat -> Limits, maxcount: u32)
    requires |dir.items| + 3 <= U64_MAX && cookie !in {1, 2} && Start(cookie) <= |dir.items| && NoneBroken(dir)
    requires dir.paged ==> forall c :: limits(c).maxcount == maxcount
    ensures var l, start := List(dir, cookie, calls, limits), Start(cookie);
            l == Refused(Toosmall)
            || (l.Listed? <==> NoHiddenTail(dir, start) && (dir.paged ==> NoGap(dir, start, Most(maxcount))))
  {
    var start := Start(cookie);
    if k: nat :| start <= k < |dir.items| && dir.items[k].view.Hidden? && !VisibleAfter(dir, k) {
      HiddenTailNeverEnds(dir, cookie, calls, limits, k);
    } else if i: nat :| dir.paged && i >= start && Gap(dir, i, Most(maxcount)) {
      GapNeverEnds(dir, cookie, calls, limits, Most(maxcount), i);
    } else {
      ListingEnds(dir, cookie, calls, limits, Most(maxcount));
    }
  }

  /** A directory of named attributes, of which none is ever omitted, is listed to the end exactly when its last entry is not hidden. */
  lemma UnpagedEndsIff(dir: Dir, cookie: u64, calls: nat, limits: nat -> Limits)
    requires |dir.items| + 3 <= U64_MAX && cookie !in {1, 2} && Start(cookie) < |dir.items|
    requires !dir.paged && NoneBroken(dir) && forall k | 0 <= k < |dir.items| :: !dir.items[k].view.Omitted?
    ensures var l := List(dir, cookie, calls, limits);
            l == Refused(Toosmall) || (l.Listed? <==> dir.items[|dir.items| - 1].view.Visible?)
  {
    ListingEndsIff(dir, cookie, calls, limits, 0);
    var last := |dir.items| - 1;
    if dir.items[last].view.Visible? {
      assert forall k: nat | Start(cookie) <= k < |dir.items| && dir.items[k].view.Hidden? :: VisibleAfter(dir, k);
    } else {
      assert dir.items[last].view.Hidden? && !VisibleAfter(dir, last);
    }
  }

  /** A fenced last entry does not keep the listing from its end. */
  lemma OmittedTailEnds(shown: Name, fenced: Name, attrs: Fattr, change: u64, limits: nat -> Limits)
    requires 256 <= limits(0).maxcount && ResokLen([Entry(3, shown, attrs)]) <= limits(0).maxcount
    ensures List(Dir([Item(shown, Visible(attrs)), Item(fenced, Omitted)], change, true), 0, 0, limits)
         == Listed([Entry(3, shown, attrs)])
  {
    var dir := Dir([Item(shown, Visible(attrs)), Item(fenced, Omitted)], change, true);
    var e := Entry(3, shown, attrs);
    assert End(dir, 0, limits(0).maxcount) == 2;
    var cs := Candidates(dir, 0, 2);
    assert cs == [Keep(e), Drop];
    assert cs[..1] == [Keep(e)] && [Keep(e)][..0] == [];
    assert Present([Keep(e)]) == Present([]) + [Keep(e)];
    assert Present(cs) == [Keep(e)];
    LenOneMore([], e);
    assert [] + [e] == [e];
    assert Fill([Keep(e)], 0, [], limits(0)) == Fill([Keep(e)], 1, [e], limits(0));
  }

  /** A fenced entry before a visible one, and one entry to a backend page: the listing stops. */
  lemma OmittedFirstEntryStalls(fenced: Name, shown: Name, attrs: Fattr, change: u64, limits: nat -> Limits)
    requires 128 <= limits(0).maxcount < 256
    ensures List(Dir([Item(fenced, Omitted), Item(shown, Visible(attrs))], change, true), 0, 0, limits) == Stuck(0)
  {
    var dir := Dir([Item(fenced, Omitted), Item(shown, Visible(attrs))], change, true);
    assert End(dir, 0, limits(0).maxcount) == 1;
    PageOutcome(dir, 0, limits(0));
    EmptyPage(dir, 0, 1, limits(0));
  }

  /** The last entry may be visible and yet never listed: a hidden one before it, and one entry to a backend page. */
  lemma HiddenFirstEntryStalls(hidden: Name, shown: Name, attrs: Fattr, change: u64, limits: nat -> Limits)
    requires 128 <= limits(0).maxcount < 256
    ensures List(Dir([Item(hidden, Hidden), Item(shown, Visible(attrs))], change, true), 0, 0, limits) == Stuck(0)
  {
    var dir := Dir([Item(hidden, Hidden), Item(shown, Visible(attrs))], change, true);
    assert End(dir, 0, limits(0).maxcount) == 1;
    PageOutcome(dir, 0, limits(0));
    EmptyPage(dir, 0, 1, limits(0));
  }

  // ---- Refusals ----

  /** A page without entries, as encoded. */
  const EMPTY_PAGE: nat := 16

  /** Cookies 1 and 2 are reserved, a resumed listing must bring the directory's verifier, and a limit of zero is too small. */
  lemma RequestChecks(dir: Dir, req: Request)
    requires |dir.items| + 3 <= U64_MAX
    ensures req.cookie in {1, 2} ==> Readdir(dir, req) == Failure(BadCookie)
    ensures req.cookie !in {1, 2} && req.limits.maxcount == 0 ==> Readdir(dir, req) == Failure(Toosmall)
    ensures req.cookie > 2 && req.limits.maxcount > 0 && req.verf != dir.change ==> Readdir(dir, req) == Failure(NotSame)
    ensures req.cookie == 0 ==> Readdir(dir, req) == Readdir(dir, req.(verf := dir.change))
  {
  }

  /** The first candidate that gives an entry, or fails, is the i-th. */
  ghost predicate First(cs: seq<Candidate>, i: nat) {
    i < |cs| && (cs[i].Keep? || cs[i].Fail?) && forall j | 0 <= j < i :: cs[j].Skip? || cs[j].Drop?
  }

  /** Once a page has an entry, only an entry that cannot be read makes the request fail. */
  lemma {:induction false} FilledSucceeds(cs: seq<Candidate>, i: nat, page: seq<Entry>, limits: Limits)
    requires i <= |cs| && page != [] && forall k | i <= k < |cs| :: !cs[k].Fail?
    ensures Fill(cs, i, page, limits).Success?
    decreases |cs| - i
  {
    if i < |cs| {
      FilledSucceeds(cs, i + 1, if cs[i].Keep? then page + [cs[i].entry] else page, limits);
    }
  }

  lemma {:induction false} FillSkips(cs: seq<Candidate>, i: nat, to: nat, limits: Limits)
    requires i <= to <= |cs| && forall j | i <= j < to :: cs[j].Skip? || cs[j].Drop?
    ensures Fill(cs, i, [], limits) == Fill(cs, to, [], limits)
    decreases |cs| - i
  {
    if i < to {
      FillSkips(cs, i + 1, to, limits);
    }
  }

  lemma FirstDecides(cs: seq<Candidate>, i: nat, limits: Limits)
    requires First(cs, i)
    ensures cs[i].Fail? ==> Fill(cs, 0, [], limits) == Failure(cs[i].status)
    ensures cs[i].Keep? && EMPTY_PAGE + ItemLen(cs[i].entry) > limits.maxcount ==> Fill(cs, 0, [], limits) == Failure(Toosmall)
    ensures cs[i].Keep? && EMPTY_PAGE + ItemLen(cs[i].entry) <= limits.maxcount && (forall k | 0 <= k < |cs| :: !cs[k].Fail?) ==>
              Fill(cs, 0, [], limits).Success?
  {
    FillSkips(cs, 0, i, limits);
    if cs[i].Keep? && EMPTY_PAGE + ItemLen(cs[i].entry) <= limits.maxcount && forall k | 0 <= k < |cs| :: !cs[k].Fail? {
      assert Fill(cs, i, [], limits) == Fill(cs, i + 1, [] + [cs[i].entry], limits);
      FilledSucceeds(cs, i + 1, [] + [cs[i].entry], limits);
    }
  }

  lemma {:induction false} FirstExists(cs: seq<Candidate>) returns (i: nat)
    ensures if i < |cs| then First(cs, i) else i == |cs| && forall j | 0 <= j < |cs| :: cs[j].Skip? || cs[j].Drop?
  {
    i := 0;
    while i < |cs| && (cs[i].Skip? || cs[i].Drop?)
      invariant i <= |cs| && forall j | 0 <= j < i :: cs[j].Skip? || cs[j].Drop?
    {
      i := i + 1;
    }
  }

  /** The first entry in the window that can be shown, or cannot be read. */
  ghost predicate Leads(dir: Dir, start: nat, end: nat, k: nat) {
    && start <= k < end && k < |dir.items| && (dir.items[k].view.Visible? || dir.items[k].view.Broken?)
    && forall j | start <= j < k :: dir.items[j].view.Hidden? || dir.items[j].view.Omitted?
  }

  lemma FirstLeads(dir: Dir, start: nat, end: nat, i: nat)
    requires |dir.items| + 3 <= U64_MAX && start <= end && (start < end ==> end <= |dir.items|)
    requires First(Candidates(dir, start, end), i)
    ensures forall k: nat :: Leads(dir, start, end, k) <==> k == start + i
  {
    var cs := Candidates(dir, start, end);
    forall k: nat
      ensures Leads(dir, start, end, k) <==> k == start + i
    {
      assert forall j | 0 <= j < |cs| :: cs[j] == CandidateAt(dir, start + j);
      if k == start + i {
        forall j | start <= j < k
          ensures dir.items[j].view.Hidden? || dir.items[j].view.Omitted?
        {
          assert cs[j - start] == CandidateAt(dir, j);
        }
      } else if start <= k < end {
        assert cs[k - start] == CandidateAt(dir, k) && cs[i] == CandidateAt(dir, start + i);
      }
    }
  }

  lemma NoneLeads(dir: Dir, start: nat, end: nat)
    requires |dir.items| + 3 <= U64_MAX && start <= end && (start < end ==> end <= |dir.items|)
    requires var cs := Candidates(dir, start, end); forall j | 0 <= j < |cs| :: cs[j].Skip? || cs[j].Drop?
    ensures forall k: nat :: !Leads(dir, start, end, k)
  {
    var cs := Candidates(dir, start, end);
    forall k: nat | start <= k < end
      ensures !Leads(dir, start, end, k)
    {
      assert cs[k - start] == CandidateAt(dir, k);
    }
  }

  /** An entry that cannot be read fails the request, if it comes first. */
  lemma BrokenFails(dir: Dir, cookie: u64, limits: Limits, k: nat)
    requires |dir.items| + 3 <= U64_MAX && cookie !in {1, 2} && EMPTY_PAGE <= limits.maxcount
    requires Leads(dir, Start(cookie), End(dir, Start(cookie), limits.maxcount), k) && dir.items[k].view.Broken?
    ensures Readdir(dir, Request(cookie, dir.change, limits)) == Failure(dir.items[k].view.status)
  {
    var start := Start(cookie);
    var cs := Candidates(dir, start, End(dir, start, limits.maxcount));
    assert forall j | 0 <= j < |cs| :: cs[j] == CandidateAt(dir, start + j);
    FirstDecides(cs, k - start, limits);
    FillPresent(cs, limits);
    assert ResokLen([]) == EMPTY_PAGE;
  }

  /** READDIR is refused as too small exactly if the limit has no room for an empty page, or for the first entry it would show. */
  lemma TooSmallIff(dir: Dir, cookie: u64, limits: Limits)
    requires |dir.items| + 3 <= U64_MAX && cookie !in {1, 2} && NoneBroken(dir)
    ensures Readdir(dir, Request(cookie, dir.change, limits)) == Failure(Toosmall)
       <==> limits.maxcount < EMPTY_PAGE
            || exists k: nat :: Leads(dir, Start(cookie), End(dir, Start(cookie), limits.maxcount), k)
                           && EMPTY_PAGE + ItemLen(CandidateAt(dir, k).entry) > limits.maxcount
  {
    var start := Start(cookie);
    var end := End(dir, start, limits.maxcount);
    var cs := Candidates(dir, start, end);
    assert forall j | 0 <= j < |cs| :: cs[j] == CandidateAt(dir, start + j);
    assert ResokLen([]) == EMPTY_PAGE;
    FillPresent(cs, limits);
    var i := FirstExists(cs);
    if i < |cs| {
      FirstDecides(cs, i, limits);
      FirstLeads(dir, start, end, i);
    } else {
      FillsNothing(cs, 0, limits);
      NoneLeads(dir, start, end);
    }
  }

  /** With room for each entry at each call, no listing is refused. */
  lemma {:induction false} RoomyListingIsNotRefused(dir: Dir, cookie: u64, calls: nat, limits: nat -> Limits)
    requires |dir.items| + 3 <= U64_MAX && cookie !in {1, 2} && NoneBroken(dir)
    requires forall c: nat :: limits(c).maxcount >= EMPTY_PAGE
    requires forall c: nat, k | 0 <= k < |dir.items| && dir.items[k].view.Visible? ::
               EMPTY_PAGE + ItemLen(CandidateAt(dir, k).entry) <= limits(c).maxcount
    ensures !List(dir, cookie, calls, limits).Refused?
    decreases |dir.items| + 3 - cookie
  {
    TooSmallIff(dir, cookie, limits(calls));
    PageOutcome(dir, cookie, limits(calls));
    var r := Readdir(dir, Request(cookie, dir.change, limits(calls)));
    if r.Success? && !r.value.eof && r.value.entries != [] {
      PageAdvances(dir, cookie, limits(calls));
      RoomyListingIsNotRefused(dir, NextCookie(r.value), calls + 1, limits);
    }
  }

  // ---- LISTXATTRS ----

  datatype XattrPage = XattrPage(cookie: u64, names: seq<Name>, eof: bool)

  function NamesLen(names: seq<Name>): nat {
    if names == [] then 0 else NamesLen(names[..|names| - 1]) + OpaqueLen(|names[|names| - 1]|)
  }

  function NamesXdr(names: seq<Name>): Bytes {
    if names == [] then [] else NamesXdr(names[..|names| - 1]) + Opaque(names[|names| - 1])
  }

  function XattrPageXdr(page: XattrPage): Bytes {
    U64(page.cookie) + (U32(Low32(|page.names|)) + NamesXdr(page.names)) + Bool(page.eof)
  }

  lemma {:induction false} NamesLenExact(names: seq<Name>)
    ensures |NamesXdr(names)| == NamesLen(names)
  {
    if names != [] {
      NamesLenExact(names[..|names| - 1]);
    }
  }

  /** Where the page stops: at the end, or before the first name that does not fit. */
  function TakeEnd(names: seq<Name>, start: nat, end: nat, maxcount: u32): (stop: nat)
    requires start <= end <= |names|
    ensures end <= stop <= |names|
    decreases |names| - end
  {
    if end == |names| || 16 + NamesLen(names[start..end]) + OpaqueLen(|names[end]|) > maxcount then end
    else TakeEnd(names, start, end + 1, maxcount)
  }

  function XattrPageOf(names: seq<Name>, cookie: u64, maxcount: u32): Result<XattrPage>
    requires |names| <= U64_MAX
  {
    if cookie > |names| then Failure(Inval)
    else
      var end := TakeEnd(names, cookie, cookie, maxcount);
      if end == cookie && cookie < |names| then Failure(Toosmall)
      else Success(XattrPage(end, names[cookie..end], end == |names|))
  }

  method ListxattrsPage(names: seq<Name>, cookie: u64, maxcount: u32) returns (r: Result<XattrPage>)
    requires |names| <= U64_MAX
    ensures r == XattrPageOf(names, cookie, maxcount)
  {
    if cookie > |names| {
      return Failure(Inval);
    }
    var used: nat := 16;
    var end: nat := cookie;
    while end < |names|
      invariant cookie <= end <= |names| && used == 16 + NamesLen(names[cookie..end])
      invariant TakeEnd(names, cookie, cookie, maxcount) == TakeEnd(names, cookie, end, maxcount)
    {
      var itemLen := OpaqueLen(|names[end]|);
      NamesOneMore(names, cookie, end);
      if used + itemLen > maxcount {
        if end == cookie {
          return Failure(Toosmall);
        }
        break;
      }
      used := used + itemLen;
      end := end + 1;
    }
    return Success(XattrPage(end, names[cookie..end], end == |names|));
  }

  lemma NamesOneMore(names: seq<Name>, start: nat, end: nat)
    requires start <= end < |names|
    ensures NamesLen(names[start..end + 1]) == NamesLen(names[start..end]) + OpaqueLen(|names[end]|)
  {
    assert names[start..end + 1][..end - start] == names[start..end];
  }

  lemma {:induction false} TakeEndFits(names: seq<Name>, start: nat, end: nat, maxcount: u32)
    requires start <= end <= |names|
    ensures var stop := TakeEnd(names, start, end, maxcount);
            && (stop > end ==> 16 + NamesLen(names[start..stop]) <= maxcount)
            && (stop < |names| ==> 16 + NamesLen(names[start..stop + 1]) > maxcount)
    decreases |names| - end
  {
    if end < |names| {
      NamesOneMore(names, start, end);
      if 16 + NamesLen(names[start..end + 1]) <= maxcount {
        TakeEndFits(names, start, end + 1, maxcount);
        assert TakeEnd(names, start, end, maxcount) == TakeEnd(names, start, end + 1, maxcount);
      } else {
        assert TakeEnd(names, start, end, maxcount) == end;
      }
    }
  }

  lemma XattrPageLen(page: XattrPage)
    ensures |XattrPageXdr(page)| == 16 + NamesLen(page.names)
  {
    NamesLenExact(page.names);
  }

  /** A page fits the client's limit as the encoder writes it, unless no name is left and the limit is below 16. */
  lemma XattrPageFits(names: seq<Name>, cookie: u64, maxcount: u32, page: XattrPage)
    requires |names| <= U64_MAX && XattrPageOf(names, cookie, maxcount) == Success(page)
    ensures |XattrPageXdr(page)| <= maxcount <==> cookie < |names| || maxcount >= 16
  {
    TakeEndFits(names, cookie, cookie, maxcount);
    XattrPageLen(page);
  }

  /** Such a page: no names, a limit of 15, and sixteen bytes. */
  lemma XattrPageOverruns()
    ensures XattrPageOf([], 0, 15) == Success(XattrPage(0, [], true)) && |XattrPageXdr(XattrPage(0, [], true))| == 16
  {
    XattrPageLen(XattrPage(0, [], true));
  }

  /** LISTXATTRS is refused exactly beyond the last name, or if the first name has no room. */
  lemma XattrsRefusedIff(names: seq<Name>, cookie: u64, maxcount: u32)
    requires |names| <= U64_MAX
    ensures XattrPageOf(names, cookie, maxcount) == Failure(Inval) <==> cookie > |names|
    ensures XattrPageOf(names, cookie, maxcount) == Failure(Toosmall)
       <==> cookie < |names| && |XattrPageXdr(XattrPage(cookie, [names[cookie]], false))| > maxcount
    ensures var r := XattrPageOf(names, cookie, maxcount); r.Failure? ==> r.status in {Inval, Toosmall}
  {
    if cookie < |names| {
      XattrPageLen(XattrPage(cookie, [names[cookie]], false));
      var one := [names[cookie]];
      assert one[..0] == names[cookie..cookie];
    }
  }

  /** With one more name it would not. */
  lemma XattrPageIsFull(names: seq<Name>, cookie: u64, maxcount: u32, page: XattrPage)
    requires |names| <= U64_MAX && XattrPageOf(names, cookie, maxcount) == Success(page) && !page.eof
    ensures page.cookie < |names| && 16 + NamesLen(names[cookie..page.cookie + 1]) > maxcount
  {
    TakeEndFits(names, cookie, cookie, maxcount);
  }

  /** A client that keeps asking from the cookie it got, with any limit at each call. */
  function ListXattrs(names: seq<Name>, cookie: u64, calls: nat, limits: nat -> u32): Result<seq<Name>>
    requires |names| <= U64_MAX
    decreases |names| - cookie
  {
    var r := XattrPageOf(names, cookie, limits(calls));
    if r.Failure? then Failure(r.status)
    else if r.value.eof then Success(r.value.names)
    else
      var rest := ListXattrs(names, r.value.cookie, calls + 1, limits);
      if rest.Failure? then rest else Success(r.value.names + rest.value)
  }

  /** It gets every name exactly once, in order, unless a limit is too small for the next name. */
  lemma {:induction false} XattrsListedOnce(names: seq<Name>, cookie: u64, calls: nat, limits: nat -> u32)
    requires |names| <= U64_MAX && cookie <= |names|
    ensures ListXattrs(names, cookie, calls, limits) in {Success(names[cookie..]), Failure(Toosmall)}
    decreases |names| - cookie
  {
    var r := XattrPageOf(names, cookie, limits(calls));
    assert names[cookie..|names|] == names[cookie..];
    if r.Success? && !r.value.eof {
      XattrsListedOnce(names, r.value.cookie, calls + 1, limits);
      assert names[cookie..r.value.cookie] + names[r.value.cookie..] == names[cookie..];
    }
  }
}
