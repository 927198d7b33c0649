/** Listing a directory of the in-memory filesystem through the server, page by page. */
module MemFsListing {
  import opened NfsTypes
  import opened MemFsTree
  import opened MemFsReaddir
  import R = Readdir

  /** The directory as READDIR sees it: its names in order, each with what a request can see of it. */
  function DirOf(names: seq<string>, utf8: string -> Name, view: string -> R.View, change: u64): R.Dir {
    R.Dir(seq(|names|, i requires 0 <= i < |names| => R.Item(utf8(names[i]), view(names[i]))), change, true)
  }

  /**
    The page the filesystem returns, asked for as many entries as the server asks for, is exactly
    the window READDIR starts from, before the server drops the children it cannot register: the
    same positions, names and cookies, and the same end.
   */
  lemma PageIsWindow(names: seq<string>, entries: map<string, InodeId>, utf8: string -> Name, view: string -> R.View,
                     change: u64, cookie: u64, maxcount: u32)
    requires |names| + 3 <= U64_MAX && forall n | n in names :: n in entries
    ensures var dir, start := DirOf(names, utf8, view, change), R.Start(cookie);
            var end := R.End(dir, start, maxcount);
            && StartOf(cookie) == start && EndOf(start, R.Most(maxcount), |names|) == end
            && var page, cs := PageOf(names, entries, start, end), R.Candidates(dir, start, end);
               |page| == |cs| && forall i | 0 <= i < |cs| ::
                 && page[i].name == names[start + i] && page[i].cookie == start + i + 3
                 && (cs[i].Drop? <==> view(page[i].name).Omitted?)
                 && (cs[i].Keep? ==> cs[i].entry.cookie == page[i].cookie && cs[i].entry.name == utf8(page[i].name))
  {
    var dir, start := DirOf(names, utf8, view, change), R.Start(cookie);
    var end := R.End(dir, start, maxcount);
    var cs := R.Candidates(dir, start, end);
    assert forall i | 0 <= i < |cs| :: cs[i] == R.CandidateAt(dir, start + i);
  }

  /** Following the cookies of an unchanged directory, nothing hidden, gives each of its names once, in order. */
  lemma EveryNameListedOnce(names: seq<string>, keys: set<string>, utf8: string -> Name, view: string -> R.View, change: u64,
                            limits: nat -> R.Limits, n: string)
    requires Orders(names, keys) && |names| + 3 <= U64_MAX && n in keys
    requires (forall m | m in keys :: view(m).Visible?) && forall a, b :: utf8(a) == utf8(b) ==> a == b
    ensures var l := R.List(DirOf(names, utf8, view, change), 0, 0, limits);
            || l == R.Refused(Toosmall)
            || (l.Listed? && |l.entries| == |keys|
                && exists k | 0 <= k < |l.entries| ::
                     l.entries[k].name == utf8(n) && forall j | 0 <= j < |l.entries| && j != k :: l.entries[j].name != utf8(n))
  {
    var dir := DirOf(names, utf8, view, change);
    R.ListsEverything(dir, 0, 0, limits);
    R.EntriesAreItems(dir, |names|);
    SizeOfOrder(names, keys);
    assert n in Elements(names);
    var k :| 0 <= k < |names| && names[k] == n;
    var es := R.VisibleEntries(dir, 0, |names|);
    assert es[k].name == utf8(n);
    forall j | 0 <= j < |names| && j != k
      ensures es[j].name != utf8(n)
    {
      LessTotal(names[j], names[j]);
      LessTotal(names[k], names[k]);
      assert names[j] != names[k];
    }
  }
}
