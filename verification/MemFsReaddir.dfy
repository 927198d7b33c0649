/** Reading a directory of the in-memory filesystem: the names in order, from a cookie, one page at a time. */
module MemFsReaddir {
  import opened NfsTypes
  import opened MemFsTree
  import opened MemFs

  /** Names are ordered by their first difference. */
  predicate Less(a: string, b: string) {
    b != [] && (a == [] || a[0] < b[0] || (a[0] == b[0] && Less(a[1..], b[1..])))
  }

  /** Where they first differ, a has the smaller character or has ended. */
  lemma {:induction false} LessIffFirstDifference(a: string, b: string)
    ensures Less(a, b) <==> exists k :: FirstDifference(a, b, k) && (k == |a| || a[k] < b[k])
    decreases |a|
  {
    if a == [] || b == [] || a[0] != b[0] {
      assert FirstDifference(a, b, 0) <==> b != [];
    } else {
      LessIffFirstDifference(a[1..], b[1..]);
      forall k
        ensures FirstDifference(a, b, k + 1) <==> FirstDifference(a[1..], b[1..], k)
      {
        DifferenceShifts(a, b, k);
      }
      if Less(a, b) {
        var k :| FirstDifference(a[1..], b[1..], k) && (k == |a[1..]| || a[1..][k] < b[1..][k]);
        assert FirstDifference(a, b, k + 1);
      } else if k :| FirstDifference(a, b, k) && (k == |a| || a[k] < b[k]) {
        assert k != 0;
        assert FirstDifference(a, b, (k - 1) + 1);
      }
    }
  }

  ghost predicate FirstDifference(a: string, b: string, k: int) {
    0 <= k <= |a| && k < |b| && (forall i | 0 <= i < k :: a[i] == b[i]) && (k < |a| ==> a[k] != b[k])
  }

  lemma DifferenceShifts(a: string, b: string, k: int)
    requires a != [] && b != [] && a[0] == b[0]
    ensures FirstDifference(a, b, k + 1) <==> FirstDifference(a[1..], b[1..], k)
  {
    if FirstDifference(a, b, k + 1) {
      assert forall i | 0 <= i < k :: a[1..][i] == a[i + 1] && b[1..][i] == b[i + 1];
    }
  }

  lemma {:induction false} LessTotal(a: string, b: string)
    ensures Less(a, b) || a == b || Less(b, a)
    ensures !(Less(a, b) && Less(b, a)) && !Less(a, a)
    decreases |a|
  {
    if a != [] {
      LessTotal(a[1..], if b != [] then b[1..] else []);
      assert b != [] && a[0] == b[0] && a[1..] == b[1..] ==> a == [a[0]] + a[1..] == b;
    }
  }

  lemma {:induction false} LessTransitive(a: string, b: string, c: string)
    requires Less(a, b) && Less(b, c)
    ensures Less(a, c)
  {
    if a != [] {
      if a[0] == b[0] && b[0] == c[0] {
        LessTransitive(a[1..], b[1..], c[1..]);
      }
    }
  }

  ghost predicate Ascending(names: seq<string>) {
    forall i, j | 0 <= i < j < |names| :: Less(names[i], names[j])
  }

  ghost function Elements(names: seq<string>): set<string> {
    set n | n in names
  }

  /** The names of a directory in order: there is one such sequence. */
  ghost predicate Orders(names: seq<string>, keys: set<string>) {
    Ascending(names) && Elements(names) == keys
  }

  lemma {:induction false} OrderUnique(a: seq<string>, b: seq<string>, keys: set<string>)
    requires Orders(a, keys) && Orders(b, keys)
    ensures a == b
    decreases |a|
  {
    assert a != [] ==> a[0] in Elements(a);
    assert b != [] ==> b[0] in Elements(b);
    if a != [] && b != [] {
      FirstIsLeast(a, b[0]);
      FirstIsLeast(b, a[0]);
      LessTotal(a[0], b[0]);
      RestOrders(a, keys);
      RestOrders(b, keys);
      OrderUnique(a[1..], b[1..], keys - {a[0]});
    }
  }

  lemma FirstIsLeast(a: seq<string>, n: string)
    requires Ascending(a) && n in a
    ensures n == a[0] || Less(a[0], n)
  {
  }

  lemma RestOrders(a: seq<string>, keys: set<string>)
    requires Orders(a, keys) && a != []
    ensures Orders(a[1..], keys - {a[0]})
  {
    LessTotal(a[0], a[0]);
    assert forall i | 0 < i < |a| :: Less(a[0], a[i]);
    assert Elements(a) == {a[0]} + Elements(a[1..]);
  }

  /** Insert a name where it belongs. */
  method InsertName(names: seq<string>, name: string) returns (r: seq<string>)
    requires Ascending(names) && name !in names
    ensures Orders(r, Elements(names) + {name})
  {
    var k := 0;
    while k < |names| && Less(names[k], name)
      invariant k <= |names| && forall i | 0 <= i < k :: Less(names[i], name)
    {
      k := k + 1;
    }
    forall j | k <= j < |names|
      ensures Less(name, names[j])
    {
      LessTotal(names[k], name);
      if j > k {
        LessTransitive(name, names[k], names[j]);
      }
    }
    r := names[..k] + [name] + names[k..];
    assert Elements(r) == Elements(names) + {name} by {
      assert forall n | n in names :: n in names[..k] || n in names[k..];
    }
  }

  method SortNames(keys: set<string>) returns (names: seq<string>)
    ensures Orders(names, keys)
  {
    names := [];
    var left := keys;
    while left != {}
      invariant left <= keys && Orders(names, keys - left)
      decreases left
    {
      var n :| n in left;
      assert n !in Elements(names);
      names := InsertName(names, n);
      left := left - {n};
      assert keys - left == (keys - (left + {n})) + {n};
    }
  }

  datatype DirEntry = DirEntry(name: string, handle: InodeId, cookie: nat)

  datatype DirPage = DirPage(entries: seq<DirEntry>, eof: bool)

  function StartOf(cookie: nat): nat {
    if cookie <= 2 then 0 else cookie - 2
  }

  function EndOf(start: nat, most: nat, n: nat): nat {
    if start >= n then start else if most != 0 && start + most < n then start + most else n
  }

  /** The entries at positions start to end of the ordered names, each with its cookie. */
  function PageOf(names: seq<string>, entries: map<string, InodeId>, start: nat, end: nat): seq<DirEntry>
    requires start <= end && (start < end ==> end <= |names|) && forall n | n in names :: n in entries
  {
    seq(end - start, i requires 0 <= i < end - start =>
      DirEntry(names[start + i], entries[names[start + i]], start + i + 3))
  }

  method BuildPage(names: seq<string>, entries: map<string, InodeId>, start: nat, most: nat) returns (page: seq<DirEntry>)
    requires forall n | n in names :: n in entries
    ensures page == PageOf(names, entries, start, EndOf(start, most, |names|))
  {
    page := [];
    var k := start;
    while k < |names| && (most == 0 || k - start < most)
      invariant start <= k <= (if start >= |names| then start else |names|)
      invariant most != 0 ==> k - start <= most
      invariant page == PageOf(names, entries, start, k)
    {
      page := page + [DirEntry(names[k], entries[names[k]], k + 3)];
      k := k + 1;
    }
  }

  /** One page of a directory; zero for `most` is no limit. */
  method ReadDir(fs: MemFs, dir: InodeId, cookie: nat, most: nat) returns (r: FsResult<DirPage>, ghost names: seq<string>)
    requires Typed(fs.inodes)
    ensures r.Err? <==> !IsDir(fs.inodes, dir)
    ensures r.Err? ==> r.error == if dir !in fs.inodes then FsError.Stale else NotDirectory
    ensures r.Done? ==>
      && Orders(names, fs.inodes[dir].data.entries.Keys)
      && (forall n | n in names :: n in fs.inodes[dir].data.entries)
      && var start, n := StartOf(cookie), |names|;
         r.value == DirPage(PageOf(names, fs.inodes[dir].data.entries, start, EndOf(start, most, n)), EndOf(start, most, n) >= n)
  {
    names := [];
    if dir !in fs.inodes {
      r := Err(FsError.Stale);
      return;
    }
    if !fs.inodes[dir].data.Directory? {
      r := Err(NotDirectory);
      return;
    }
    var entries := fs.inodes[dir].data.entries;
    var sorted := SortNames(entries.Keys);
    names := sorted;
    assert forall n | n in names :: n in Elements(names);
    var start := StartOf(cookie);
    var page := BuildPage(sorted, entries, start, most);
    SizeOfOrder(sorted, entries.Keys);
    r := Done(DirPage(page, start + |page| >= |entries.Keys|));
  }

  lemma {:induction false} SizeOfOrder(names: seq<string>, keys: set<string>)
    requires Orders(names, keys)
    ensures |names| == |keys|
    decreases |names|
  {
    if names == [] {
      assert keys == {};
    } else {
      assert names[0] in keys;
      RestOrders(names, keys);
      SizeOfOrder(names[1..], keys - {names[0]});
    }
  }
}
