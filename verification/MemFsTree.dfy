/**
  The inode table of the in-memory filesystem as a value: what it means for a table to be one
  tree, what the parent walk decides, and how each kind of edit keeps the tree.
 */
module MemFsTree {
  import opened NfsTypes

  type InodeId = nat

  datatype ObjectType = FileType | DirectoryType | SymlinkType

  /** File contents are represented by their length. */
  datatype InodeData =
    | File(length: nat)
    | Directory(entries: map<string, InodeId>)
    | Symlink(target: string)

  datatype Inode = Inode(objectType: ObjectType, linkCount: nat, parent: Option<InodeId>, data: InodeData)

  type Table = map<InodeId, Inode>

  const ROOT: InodeId := 1

  predicate IsDir(t: Table, id: InodeId) {
    id in t && t[id].objectType.DirectoryType?
  }

  /** Directory d has an entry `name` for c. */
  predicate HasEntry(t: Table, d: InodeId, name: string, c: InodeId) {
    d in t && t[d].data.Directory? && name in t[d].data.entries && t[d].data.entries[name] == c
  }

  // ---- Ancestry ----

  /** anc is the k-th parent of d. */
  ghost predicate AncestorAt(t: Table, d: InodeId, anc: InodeId, k: nat)
    decreases k
  {
    if k == 0 then d == anc
    else IsDir(t, d) && t[d].parent.Some? && AncestorAt(t, t[d].parent.value, anc, k - 1)
  }

  ghost predicate Descends(t: Table, d: InodeId, anc: InodeId) {
    exists k: nat :: AncestorAt(t, d, anc, k)
  }

  lemma DescendsStep(t: Table, d: InodeId, anc: InodeId)
    ensures Descends(t, d, anc)
       <==> d == anc || (IsDir(t, d) && t[d].parent.Some? && Descends(t, t[d].parent.value, anc))
  {
    if d == anc {
      assert AncestorAt(t, d, anc, 0);
    } else if IsDir(t, d) && t[d].parent.Some? {
      var p := t[d].parent.value;
      if k: nat :| AncestorAt(t, p, anc, k) {
        assert AncestorAt(t, d, anc, k + 1);
      }
      if k: nat :| AncestorAt(t, d, anc, k) {
        assert AncestorAt(t, p, anc, k - 1);
      }
    }
  }

  /** The parent chain of d ends at the root after n steps. */
  ghost predicate RootedAt(t: Table, d: InodeId, n: nat)
    decreases n
  {
    && IsDir(t, d)
    && if n == 0 then d == ROOT
       else d != ROOT && t[d].parent.Some? && RootedAt(t, t[d].parent.value, n - 1)
  }

  ghost predicate Rooted(t: Table, d: InodeId) {
    exists n: nat :: RootedAt(t, d, n)
  }

  lemma {:induction false} DepthUnique(t: Table, d: InodeId, m: nat, n: nat)
    requires RootedAt(t, d, m) && RootedAt(t, d, n)
    ensures m == n
    decreases m
  {
    if m != 0 && n != 0 {
      DepthUnique(t, t[d].parent.value, m - 1, n - 1);
    }
  }

  ghost predicate Within(t: Table, d: InodeId, n: nat) {
    exists k: nat :: k <= n && RootedAt(t, d, k)
  }

  /** The nodes on the parent chain of d, which are n + 1 different inodes. */
  lemma {:induction false} Chain(t: Table, d: InodeId, n: nat) returns (nodes: set<InodeId>)
    requires RootedAt(t, d, n)
    ensures |nodes| == n + 1 && nodes <= t.Keys
    ensures forall x | x in nodes :: Within(t, x, n)
    decreases n
  {
    if n == 0 {
      nodes := {d};
    } else {
      nodes := Chain(t, t[d].parent.value, n - 1);
      if d in nodes {
        var k: nat :| k <= n - 1 && RootedAt(t, d, k);
        DepthUnique(t, d, k, n);
      }
      assert forall x | x in nodes :: Within(t, x, n);
      nodes := nodes + {d};
    }
  }

  /** A parent chain is shorter than the table: the fuel of the walk is enough. */
  lemma DepthBound(t: Table, d: InodeId, n: nat)
    requires RootedAt(t, d, n)
    ensures n < |t|
  {
    var nodes := Chain(t, d, n);
    SubsetSize(nodes, t.Keys);
    assert |t.Keys| == |t|;
  }

  // ---- The invariant ----

  ghost predicate Typed(t: Table) {
    forall id | id in t ::
      match t[id].objectType
      case FileType => t[id].data.File?
      case DirectoryType => t[id].data.Directory?
      case SymlinkType => t[id].data.Symlink?
  }

  /** c has exactly one entry, and its parent field says which directory holds it. */
  ghost predicate OneEntry(t: Table, c: InodeId)
    requires c in t
  {
    && t[c].parent.Some?
    && (exists name :: HasEntry(t, t[c].parent.value, name, c))
    && (forall d, name | HasEntry(t, d, name, c) :: d == t[c].parent.value)
    && (forall name, name' | HasEntry(t, t[c].parent.value, name, c) && HasEntry(t, t[c].parent.value, name', c) ::
          name == name')
  }

  ghost predicate Named(t: Table, id: InodeId) {
    exists d, name :: HasEntry(t, d, name, id)
  }

  ghost predicate Tree(t: Table) {
    && Typed(t)
    && IsDir(t, ROOT) && t[ROOT].parent == None
    && (forall d, name, c | HasEntry(t, d, name, c) :: c in t && c != ROOT)
    && (forall c | IsDir(t, c) && c != ROOT :: OneEntry(t, c))
    && (forall c | IsDir(t, c) :: Rooted(t, c))
    && (forall id | id in t && !IsDir(t, id) :: Named(t, id))
  }

  // ---- What the invariant means ----

  function Resolve(t: Table, d: InodeId, path: seq<string>): Option<InodeId>
    decreases |path|
  {
    if path == [] then Some(d)
    else if d in t && t[d].data.Directory? && path[0] in t[d].data.entries
    then Resolve(t, t[d].data.entries[path[0]], path[1..])
    else None
  }

  lemma {:induction false} ResolveLast(t: Table, d: InodeId, path: seq<string>, name: string, c: InodeId)
    ensures Resolve(t, d, path + [name]) == Some(c)
       <==> Resolve(t, d, path).Some? && HasEntry(t, Resolve(t, d, path).value, name, c)
    decreases |path|
  {
    if path == [] {
      assert (path + [name])[1..] == [];
    } else {
      assert (path + [name])[1..] == path[1..] + [name] && (path + [name])[0] == path[0];
      if d in t && t[d].data.Directory? && path[0] in t[d].data.entries {
        ResolveLast(t, t[d].data.entries[path[0]], path[1..], name, c);
      }
    }
  }

  /** Every inode of a tree is reached from the root by some path of names. */
  lemma EveryInodeReachable(t: Table, id: InodeId) returns (path: seq<string>)
    requires Tree(t) && id in t
    ensures Resolve(t, ROOT, path) == Some(id)
  {
    if IsDir(t, id) {
      var n: nat :| RootedAt(t, id, n);
      path := DirectoryReachable(t, id, n);
    } else {
      assert Named(t, id);
      var d, name :| HasEntry(t, d, name, id);
      var n: nat :| RootedAt(t, d, n);
      path := DirectoryReachable(t, d, n);
      ResolveLast(t, ROOT, path, name, id);
      path := path + [name];
    }
  }

  lemma {:induction false} DirectoryReachable(t: Table, d: InodeId, n: nat) returns (path: seq<string>)
    requires Tree(t) && RootedAt(t, d, n)
    ensures Resolve(t, ROOT, path) == Some(d)
    decreases n
  {
    if n == 0 {
      path := [];
    } else {
      assert OneEntry(t, d);
      var p := t[d].parent.value;
      var name :| HasEntry(t, p, name, d);
      path := DirectoryReachable(t, p, n - 1);
      ResolveLast(t, ROOT, path, name, d);
      path := path + [name];
    }
  }

  /** No two paths lead to one directory. */
  lemma {:induction false} DirectoryPathUnique(t: Table, p: seq<string>, q: seq<string>, d: InodeId)
    requires Tree(t) && IsDir(t, d)
    requires Resolve(t, ROOT, p) == Some(d) && Resolve(t, ROOT, q) == Some(d)
    ensures p == q
    decreases |p|
  {
    if p != [] {
      var p', a := p[..|p| - 1], p[|p| - 1];
      assert p == p' + [a];
      ResolveLast(t, ROOT, p', a, d);
      if q != [] {
        var q', b := q[..|q| - 1], q[|q| - 1];
        assert q == q' + [b];
        ResolveLast(t, ROOT, q', b, d);
        assert OneEntry(t, d);
        DirectoryPathUnique(t, p', q', Resolve(t, ROOT, p').value);
      }
    } else if q != [] {
      var q', b := q[..|q| - 1], q[|q| - 1];
      assert q == q' + [b];
      ResolveLast(t, ROOT, q', b, d);
    }
  }

  // ---- Link counts ----

  ghost function LinksTo(t: Table, id: InodeId): set<(InodeId, string)> {
    set d, name | d in t && t[d].data.Directory? && name in t[d].data.entries
                  && t[d].data.entries[name] == id :: (d, name)
  }

  ghost function Subdirectories(t: Table, d: InodeId): set<(InodeId, string)> {
    if d in t && t[d].data.Directory?
    then set name | name in t[d].data.entries && IsDir(t, t[d].data.entries[name]) :: (d, name)
    else {}
  }

  ghost function Links(t: Table, id: InodeId): nat {
    if IsDir(t, id) then 2 + |Subdirectories(t, id)| else |LinksTo(t, id)|
  }

  ghost predicate Counted(t: Table) {
    forall id | id in t :: t[id].linkCount == Links(t, id)
  }

  lemma EntryIsLink(t: Table, d: InodeId, name: string, id: InodeId)
    requires HasEntry(t, d, name, id)
    ensures |LinksTo(t, id)| >= 1
  {
    SubsetSize({(d, name)}, LinksTo(t, id));
  }

  /** A non-directory in a counted tree has at least one link. */
  lemma LinkedOnce(t: Table, id: InodeId)
    requires Tree(t) && Counted(t) && id in t && !IsDir(t, id)
    ensures t[id].linkCount == |LinksTo(t, id)| >= 1
  {
    assert Named(t, id);
    var d, name :| HasEntry(t, d, name, id);
    EntryIsLink(t, d, name, id);
  }

  // ---- Edits ----

  /** The shared frame of every edit: surviving inodes keep their type and, unless directories, their data. */
  ghost predicate SameContents(t: Table, t': Table) {
    forall id | id in t && id in t' ::
      t'[id].objectType == t[id].objectType && (!IsDir(t, id) ==> t'[id].data == t[id].data)
  }

  /** A chain that avoids the moved and the removed inode is unchanged. */
  lemma {:induction false} StayRooted(t: Table, t': Table, d: InodeId, n: nat, moved: InodeId, gone: Option<InodeId>)
    requires RootedAt(t, d, n) && !Descends(t, d, moved) && gone != Some(d)
    requires forall x | IsDir(t, x) && x != moved && gone != Some(x) ::
               IsDir(t', x) && t'[x].parent == t[x].parent && (gone.Some? ==> t[x].parent != gone)
    ensures RootedAt(t', d, n)
    decreases n
  {
    DescendsStep(t, d, moved);
    if n > 0 {
      StayRooted(t, t', t[d].parent.value, n - 1, moved, gone);
    }
  }

  /** A chain through the moved directory continues at its new parent. */
  lemma {:induction false} MoveRooted(t: Table, t': Table, d: InodeId, n: nat, moved: InodeId, gone: Option<InodeId>,
                                      m: nat)
    requires RootedAt(t, d, n) && Descends(t, d, moved) && gone != Some(d)
    requires forall x | IsDir(t, x) && x != moved && gone != Some(x) ::
               IsDir(t', x) && t'[x].parent == t[x].parent && (gone.Some? ==> t[x].parent != gone)
    requires IsDir(t', moved) && moved != ROOT && t'[moved].parent.Some? && RootedAt(t', t'[moved].parent.value, m)
    requires ROOT in t && t[ROOT].parent == None
    ensures Rooted(t', d)
    decreases n
  {
    DescendsStep(t, d, moved);
    if d == moved {
      assert RootedAt(t', d, m + 1);
    } else {
      var p := t[d].parent.value;
      MoveRooted(t, t', p, n - 1, moved, gone, m);
      var k: nat :| RootedAt(t', p, k);
      assert RootedAt(t', d, k + 1);
    }
  }

  lemma {:induction false} ChainIsDirectories(t: Table, d: InodeId, n: nat, anc: InodeId)
    requires RootedAt(t, d, n) && Descends(t, d, anc) && ROOT in t && t[ROOT].parent == None
    ensures IsDir(t, anc)
    decreases n
  {
    DescendsStep(t, d, anc);
    if d != anc {
      ChainIsDirectories(t, t[d].parent.value, n - 1, anc);
    }
  }

  /** Adding a fresh inode under a new name (CREATE, SYMLINK). */
  lemma CreateKeepsTree(t: Table, t': Table, p: InodeId, name: string, new_: InodeId)
    requires Tree(t) && Typed(t') && SameContents(t, t') && IsDir(t, p) && new_ !in t
    requires t'.Keys == t.Keys + {new_} && t'[new_].parent == Some(p)
    requires forall id | id in t :: t'[id].parent == t[id].parent
    requires forall d, n, c :: HasEntry(t', d, n, c) <==> HasEntry(t, d, n, c) || (d == p && n == name && c == new_)
    requires forall c :: !HasEntry(t, p, name, c)
    ensures Tree(t')
  {
    assert HasEntry(t', p, name, new_);
    forall c | IsDir(t', c) && c != ROOT
      ensures OneEntry(t', c)
    {
      if c != new_ {
        assert OneEntry(t, c);
        var n :| HasEntry(t, t[c].parent.value, n, c);
        assert HasEntry(t', t[c].parent.value, n, c);
      }
    }
    forall c | IsDir(t', c)
      ensures Rooted(t', c)
    {
      var d := if c == new_ then p else c;
      var n: nat :| RootedAt(t, d, n);
      if Descends(t, d, new_) {
        ChainIsDirectories(t, d, n, new_);
      }
      StayRooted(t, t', d, n, new_, None);
      if c == new_ {
        assert RootedAt(t', c, n + 1);
      }
    }
    forall id | id in t' && !IsDir(t', id)
      ensures Named(t', id)
    {
      if id in t {
        assert Named(t, id);
        var d, n :| HasEntry(t, d, n, id);
        assert HasEntry(t', d, n, id);
      }
    }
  }

  /** The entries after an edit that may drop one entry and may add one. */
  ghost predicate EntriesAfter(t: Table, t': Table, cut: Option<(InodeId, string)>, add: Option<(InodeId, string)>,
                               target: InodeId)
  {
    forall d: InodeId, n: string, c: InodeId :: HasEntry(t', d, n, c)
      <==> if add == Some((d, n)) then c == target else HasEntry(t, d, n, c) && cut != Some((d, n))
  }

  /** Adding a second name for a non-directory (LINK). */
  lemma LinkKeepsTree(t: Table, t': Table, p: InodeId, name: string, source: InodeId)
    requires Tree(t) && Typed(t') && SameContents(t, t') && IsDir(t, p) && source in t && !IsDir(t, source)
    requires t'.Keys == t.Keys && forall id | id in t :: t'[id].parent == t[id].parent
    requires forall c :: !HasEntry(t, p, name, c)
    requires EntriesAfter(t, t', None, Some((p, name)), source)
    ensures Tree(t')
  {
    forall c | IsDir(t', c) && c != ROOT
      ensures OneEntry(t', c)
    {
      assert OneEntry(t, c);
      var n :| HasEntry(t, t[c].parent.value, n, c);
      assert HasEntry(t', t[c].parent.value, n, c);
    }
    forall c | IsDir(t', c)
      ensures Rooted(t', c)
    {
      var n: nat :| RootedAt(t, c, n);
      if Descends(t, c, source) {
        ChainIsDirectories(t, c, n, source);
      }
      StayRooted(t, t', c, n, source, None);
    }
    forall id | id in t' && !IsDir(t', id)
      ensures Named(t', id)
    {
      assert Named(t, id);
      var d, n :| HasEntry(t, d, n, id);
      assert HasEntry(t', d, n, id);
    }
  }

  /** A directory without entries is nobody's parent. */
  lemma EmptyIsNoParent(t: Table, gone: InodeId)
    requires Tree(t) && (forall n, c :: !HasEntry(t, gone, n, c))
    ensures forall x | IsDir(t, x) :: t[x].parent != Some(gone)
  {
    forall x | IsDir(t, x)
      ensures t[x].parent != Some(gone)
    {
      if x != ROOT {
        assert OneEntry(t, x);
      }
    }
  }

  /** What REMOVE and a replacing RENAME may do with the inode that lost a name. */
  ghost predicate Dropped(t: Table, t': Table, victim: InodeId) {
    && victim in t
    && (victim in t' <==> !IsDir(t, victim) && Named(t', victim))
    && (IsDir(t, victim) ==> forall n, c :: !HasEntry(t, victim, n, c))
    && t'.Keys == (if victim in t' then t.Keys else t.Keys - {victim})
  }

  /** Directories other than a removed one keep their entry. */
  lemma KeepsOneEntry(t: Table, t': Table, c: InodeId, cut: (InodeId, string), add: Option<(InodeId, string)>,
                      target: InodeId)
    requires Tree(t) && EntriesAfter(t, t', Some(cut), add, target)
    requires IsDir(t, c) && c != ROOT && c in t' && t'[c].parent == t[c].parent
    requires !HasEntry(t, cut.0, cut.1, c) && c != target
    requires add.Some? ==> !HasEntry(t, add.value.0, add.value.1, c)
    ensures OneEntry(t', c)
  {
    assert OneEntry(t, c);
    var n :| HasEntry(t, t[c].parent.value, n, c);
    assert HasEntry(t', t[c].parent.value, n, c);
  }

  /** So do non-directories. */
  lemma KeepsName(t: Table, t': Table, id: InodeId, cut: (InodeId, string), add: Option<(InodeId, string)>,
                  target: InodeId)
    requires EntriesAfter(t, t', Some(cut), add, target) && Named(t, id)
    requires !HasEntry(t, cut.0, cut.1, id)
    requires add.Some? ==> !HasEntry(t, add.value.0, add.value.1, id)
    ensures Named(t', id)
  {
    var d: InodeId, n: string :| HasEntry(t, d, n, id);
    assert add != Some((d, n)) && cut != (d, n);
    assert HasEntry(t', d, n, id);
  }

  /** Dropping a name, and its inode if that was the last one (REMOVE). */
  lemma RemoveKeepsTree(t: Table, t': Table, p: InodeId, name: string, child: InodeId)
    requires Tree(t) && Typed(t') && SameContents(t, t') && HasEntry(t, p, name, child)
    requires Dropped(t, t', child)
    requires forall id | id in t' :: t'[id].parent == t[id].parent
    requires EntriesAfter(t, t', Some((p, name)), None, child)
    ensures Tree(t')
  {
    forall c | IsDir(t', c)
      ensures c != ROOT ==> OneEntry(t', c)
      ensures Rooted(t', c)
    {
      if c != ROOT {
        KeepsOneEntry(t, t', c, (p, name), None, child);
      }
      RemoveKeepsRooted(t, t', c, child);
    }
    assert IsDir(t, child) ==> OneEntry(t, child);
    forall d, n, c | HasEntry(t', d, n, c)
      ensures c in t' && c != ROOT
    {
      assert HasEntry(t, d, n, c);
      assert c == child ==> Named(t', child);
    }
    forall id | id in t' && !IsDir(t', id)
      ensures Named(t', id)
    {
      if id != child {
        assert Named(t, id);
        KeepsName(t, t', id, (p, name), None, child);
      }
    }
  }

  lemma RemoveKeepsRooted(t: Table, t': Table, c: InodeId, child: InodeId)
    requires Tree(t) && SameContents(t, t') && Dropped(t, t', child) && IsDir(t', c)
    requires forall id | id in t' :: t'[id].parent == t[id].parent
    ensures Rooted(t', c)
  {
    var gone := if IsDir(t, child) then Some(child) else None;
    if IsDir(t, child) {
      EmptyIsNoParent(t, child);
    }
    var n: nat :| RootedAt(t, c, n);
    NotThroughEmpty(t, c, n, child);
    StayRooted(t, t', c, n, child, gone);
  }

  /** The inode that a RENAME replaces, if any. */
  ghost predicate Replaced(t: Table, t': Table, child: InodeId, to: InodeId, toName: string, victim: Option<InodeId>) {
    match victim
    case None => t'.Keys == t.Keys && forall c :: !HasEntry(t, to, toName, c)
    case Some(v) => v != child && HasEntry(t, to, toName, v) && Dropped(t, t', v) && (IsDir(t, v) <==> IsDir(t, child))
  }

  /** Moving a name, over another one or not, where the target does not lie below a moved directory. */
  ghost predicate Renamed(t: Table, t': Table, from: InodeId, fromName: string, to: InodeId, toName: string,
                          child: InodeId, victim: Option<InodeId>)
  {
    && Tree(t) && Typed(t') && SameContents(t, t')
    && HasEntry(t, from, fromName, child) && IsDir(t, to)
    && (IsDir(t, child) ==> !Descends(t, to, child))
    && Replaced(t, t', child, to, toName, victim)
    && EntriesAfter(t, t', Some((from, fromName)), Some((to, toName)), child)
    && (forall id | id in t' && !(id == child && IsDir(t, child)) :: t'[id].parent == t[id].parent)
    && (IsDir(t, child) && child in t' ==> t'[child].parent == Some(to))
  }

  /** What a RENAME does to parent fields, with the directory it removes, if any. */
  lemma RenameParents(t: Table, t': Table, from: InodeId, fromName: string, to: InodeId, toName: string,
                      child: InodeId, victim: Option<InodeId>) returns (gone: Option<InodeId>)
    requires Renamed(t, t', from, fromName, to, toName, child, victim)
    ensures gone != Some(to) && gone != Some(child) && (gone.Some? ==> gone.value !in t') && child in t'
    ensures forall x | IsDir(t, x) && x != child && gone != Some(x) ::
              IsDir(t', x) && t'[x].parent == t[x].parent && (gone.Some? ==> t[x].parent != gone)
  {
    gone := None;
    if victim.Some? && IsDir(t, victim.value) {
      gone := victim;
      EmptyIsNoParent(t, gone.value);
      assert OneEntry(t, gone.value);
    }
    forall x | IsDir(t, x) && x != child && gone != Some(x)
      ensures IsDir(t', x) && t'[x].parent == t[x].parent
    {
      RenameKeepsDir(t, t', from, fromName, to, toName, child, victim, x);
    }
  }

  lemma RenameKeepsDir(t: Table, t': Table, from: InodeId, fromName: string, to: InodeId, toName: string,
                       child: InodeId, victim: Option<InodeId>, x: InodeId)
    requires Renamed(t, t', from, fromName, to, toName, child, victim)
    requires IsDir(t, x) && x != child && victim != Some(x)
    ensures IsDir(t', x) && t'[x].parent == t[x].parent
  {
  }

  lemma RenameKeepsRooted(t: Table, t': Table, from: InodeId, fromName: string, to: InodeId, toName: string,
                          child: InodeId, victim: Option<InodeId>, c: InodeId)
    requires Renamed(t, t', from, fromName, to, toName, child, victim) && IsDir(t', c)
    ensures Rooted(t', c)
  {
    var gone := RenameParents(t, t', from, fromName, to, toName, child, victim);
    RootedAfterMove(t, t', child, gone, to, c);
  }

  lemma RootedAfterMove(t: Table, t': Table, child: InodeId, gone: Option<InodeId>, to: InodeId, c: InodeId)
    requires ROOT in t && t[ROOT].parent == None && child != ROOT
    requires Rooted(t, c) && Rooted(t, to) && gone != Some(c) && gone != Some(to)
    requires IsDir(t, child) ==> !Descends(t, to, child) && IsDir(t', child) && t'[child].parent == Some(to)
    requires forall x | IsDir(t, x) && x != child && gone != Some(x) ::
               IsDir(t', x) && t'[x].parent == t[x].parent && (gone.Some? ==> t[x].parent != gone)
    ensures Rooted(t', c)
  {
    var n: nat :| RootedAt(t, c, n);
    if Descends(t, c, child) {
      ChainIsDirectories(t, c, n, child);
      var m: nat :| RootedAt(t, to, m);
      StayRooted(t, t', to, m, child, gone);
      MoveRooted(t, t', c, n, child, gone, m);
    } else {
      StayRooted(t, t', c, n, child, gone);
    }
  }

  lemma RenameKeepsEntries(t: Table, t': Table, from: InodeId, fromName: string, to: InodeId, toName: string,
                           child: InodeId, victim: Option<InodeId>, c: InodeId)
    requires Renamed(t, t', from, fromName, to, toName, child, victim) && IsDir(t', c) && c != ROOT
    ensures OneEntry(t', c)
  {
    if c == child {
      assert OneEntry(t, c);
      assert HasEntry(t', to, toName, c);
    } else {
      KeepsOneEntry(t, t', c, (from, fromName), Some((to, toName)), child);
    }
  }

  lemma RenameKeepsLive(t: Table, t': Table, from: InodeId, fromName: string, to: InodeId, toName: string,
                        child: InodeId, victim: Option<InodeId>, d: InodeId, n: string, c: InodeId)
    requires Renamed(t, t', from, fromName, to, toName, child, victim) && HasEntry(t', d, n, c)
    ensures c in t' && c != ROOT
  {
    if (d, n) != (to, toName) {
      assert HasEntry(t, d, n, c);
      assert IsDir(t, c) && c != ROOT ==> OneEntry(t, c);
      if victim == Some(c) && !IsDir(t, c) {
        assert Named(t', c);
      }
    }
  }

  /** RENAME makes no cycle and no orphan. */
  lemma RenameKeepsTree(t: Table, t': Table, from: InodeId, fromName: string, to: InodeId, toName: string,
                        child: InodeId, victim: Option<InodeId>)
    requires Renamed(t, t', from, fromName, to, toName, child, victim)
    ensures Tree(t')
  {
    forall c | IsDir(t', c)
      ensures c != ROOT ==> OneEntry(t', c)
      ensures Rooted(t', c)
    {
      if c != ROOT {
        RenameKeepsEntries(t, t', from, fromName, to, toName, child, victim, c);
      }
      RenameKeepsRooted(t, t', from, fromName, to, toName, child, victim, c);
    }
    forall d, n, c | HasEntry(t', d, n, c)
      ensures c in t' && c != ROOT
    {
      RenameKeepsLive(t, t', from, fromName, to, toName, child, victim, d, n, c);
    }
    forall id | id in t' && !IsDir(t', id)
      ensures Named(t', id)
    {
      if id == child {
        assert HasEntry(t', to, toName, id);
      } else if victim != Some(id) {
        assert Named(t, id);
        KeepsName(t, t', id, (from, fromName), Some((to, toName)), child);
      }
    }
    if victim.Some? && IsDir(t, victim.value) {
      assert OneEntry(t, victim.value);
    }
  }

  /** No chain of another directory passes through a file or an empty directory. */
  lemma {:induction false} NotThroughEmpty(t: Table, d: InodeId, n: nat, x: InodeId)
    requires Tree(t) && RootedAt(t, d, n) && d != x
    requires IsDir(t, x) ==> forall m, c :: !HasEntry(t, x, m, c)
    ensures !Descends(t, d, x)
    decreases n
  {
    DescendsStep(t, d, x);
    if n > 0 {
      var p := t[d].parent.value;
      assert OneEntry(t, d);
      NotThroughEmpty(t, p, n - 1, x);
    }
  }
}
