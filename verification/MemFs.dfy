/**
  The in-memory filesystem: namespace operations on an inode table that is updated in place.
  Every operation keeps the table one tree with exact link counts, reports the error the
  namespace calls for, and changes the set of (directory, name, inode) entries in one way.
 */
module MemFs {
  import opened NfsTypes
  import opened MemFsTree

  datatype FsError =
    | Stale | NotFound | NotDirectory | IsDirectory | AlreadyExists | NotEmpty | InvalidInput | FileTooLarge

  datatype FsResult<+T> = Done(value: T) | Err(error: FsError)

  const MAX_FILE_BYTES: int := 64 * 1024 * 1024

  // ---- Counting ----

  ghost predicate SameButCounts(t: Table, t': Table) {
    && t'.Keys == t.Keys
    && forall id | id in t :: t'[id] == t[id].(linkCount := t'[id].linkCount)
  }

  /** The entries in `seen` that name id, and the ones of directory id that name a directory. */
  ghost function SeenLinks(t: Table, seen: set<(InodeId, string)>, id: InodeId): set<(InodeId, string)> {
    set p | p in seen && HasEntry(t, p.0, p.1, id)
  }

  ghost function SeenSubs(t: Table, seen: set<(InodeId, string)>, id: InodeId): set<(InodeId, string)> {
    set p | p in seen && p in Subdirectories(t, id)
  }

  ghost function SeenCount(t: Table, seen: set<(InodeId, string)>, id: InodeId): nat {
    if IsDir(t, id) then 2 + |SeenSubs(t, seen, id)| else |SeenLinks(t, seen, id)|
  }

  ghost predicate CountedSoFar(t: Table, now: Table, seen: set<(InodeId, string)>) {
    SameButCounts(t, now) && forall id | id in t :: now[id].linkCount == SeenCount(t, seen, id)
  }

  /** Visiting one more entry adds one to exactly one count, or to none if it dangles. */
  lemma SeeOne(t: Table, seen: set<(InodeId, string)>, d: InodeId, name: string, c: InodeId, id: InodeId)
    requires Typed(t) && id in t && HasEntry(t, d, name, c) && (d, name) !in seen
    ensures SeenCount(t, seen + {(d, name)}, id)
         == SeenCount(t, seen, id) + if c in t && id == (if IsDir(t, c) then d else c) then 1 else 0
  {
    var p := (d, name);
    var links, links' := SeenLinks(t, seen, id), SeenLinks(t, seen + {p}, id);
    var subs, subs' := SeenSubs(t, seen, id), SeenSubs(t, seen + {p}, id);
    assert links' == if c == id then links + {p} else links;
    assert subs' == if d == id && IsDir(t, c) then subs + {p} else subs;
  }

  function Bump(t: Table, id: InodeId): Table
    requires id in t
  {
    t[id := t[id].(linkCount := t[id].linkCount + 1)]
  }

  lemma CountOne(t: Table, now: Table, seen: set<(InodeId, string)>, d: InodeId, name: string, c: InodeId)
    requires Typed(t) && CountedSoFar(t, now, seen) && HasEntry(t, d, name, c) && (d, name) !in seen
    ensures CountedSoFar(t, if c in now then Bump(now, if IsDir(now, c) then d else c) else now, seen + {(d, name)})
  {
    var seen' := seen + {(d, name)};
    var now' := if c in now then Bump(now, if IsDir(now, c) then d else c) else now;
    assert IsDir(now, c) == IsDir(t, c);
    assert SameButCounts(t, now');
    forall id | id in t
      ensures now'[id].linkCount == SeenCount(t, seen', id)
    {
      SeeOne(t, seen, d, name, c, id);
      assert now[id].linkCount == SeenCount(t, seen, id);
    }
  }

  lemma SeeAll(t: Table, seen: set<(InodeId, string)>, id: InodeId)
    requires id in t && forall d: InodeId, name: string, c: InodeId | HasEntry(t, d, name, c) :: (d, name) in seen
    ensures SeenCount(t, seen, id) == Links(t, id)
  {
    assert forall p | p in LinksTo(t, id) :: HasEntry(t, p.0, p.1, id);
    assert SeenLinks(t, seen, id) == LinksTo(t, id);
    assert forall p | p in Subdirectories(t, id) :: HasEntry(t, p.0, p.1, t[p.0].data.entries[p.1]);
    assert SeenSubs(t, seen, id) == Subdirectories(t, id);
  }

  lemma SeeNone(t: Table, id: InodeId)
    ensures SeenCount(t, {}, id) == if IsDir(t, id) then 2 else 0
  {
    assert SeenLinks(t, {}, id) == {} && SeenSubs(t, {}, id) == {};
  }

  /** Counts do not matter to the shape of the table. */
  lemma CountsDoNotMatter(t: Table, t': Table)
    requires SameButCounts(t, t')
    ensures forall d, name, c :: HasEntry(t', d, name, c) <==> HasEntry(t, d, name, c)
    ensures forall id :: IsDir(t', id) <==> IsDir(t, id)
    ensures forall id :: Links(t', id) == Links(t, id)
    ensures Typed(t) ==> Typed(t')
  {
    forall id
      ensures Links(t', id) == Links(t, id)
    {
      assert LinksTo(t', id) == LinksTo(t, id);
      assert Subdirectories(t', id) == Subdirectories(t, id);
    }
  }

  // ---- Edits of one directory ----

  function WithEntry(t: Table, d: InodeId, name: string, c: InodeId): Table
    requires d in t && t[d].data.Directory?
  {
    t[d := t[d].(data := Directory(t[d].data.entries[name := c]))]
  }

  function WithoutEntry(t: Table, d: InodeId, name: string): Table
    requires d in t && t[d].data.Directory?
  {
    t[d := t[d].(data := Directory(t[d].data.entries - {name}))]
  }

  /** Only the data of directory d differs. */
  ghost predicate OnlyEntriesOf(t: Table, t': Table, d: InodeId) {
    && t'.Keys == t.Keys && d in t && t[d].data.Directory? && t'[d].data.Directory?
    && t'[d] == t[d].(data := t'[d].data)
    && forall id | id in t && id != d :: t'[id] == t[id]
  }

  lemma EntryAdded(t: Table, d: InodeId, name: string, c: InodeId)
    requires d in t && t[d].data.Directory?
    ensures forall d', n', c' :: HasEntry(WithEntry(t, d, name, c), d', n', c')
              <==> if d' == d && n' == name then c' == c else HasEntry(t, d', n', c')
    ensures OnlyEntriesOf(t, WithEntry(t, d, name, c), d)
  {
  }

  lemma EntryDropped(t: Table, d: InodeId, name: string)
    requires d in t && t[d].data.Directory?
    ensures forall d', n', c' :: HasEntry(WithoutEntry(t, d, name), d', n', c')
              <==> HasEntry(t, d', n', c') && !(d' == d && n' == name)
    ensures OnlyEntriesOf(t, WithoutEntry(t, d, name), d)
  {
  }

  // ---- The error each operation must report ----

  /** Applying the requested size to a new inode. */
  function SetSize(data: InodeData, size: Option<nat>): FsResult<InodeData> {
    if size == None then Done(data)
    else if !data.File? then Err(InvalidInput)
    else if size.value > MAX_FILE_BYTES then Err(FileTooLarge)
    else Done(File(size.value))
  }

  /** Why a new name cannot be put in directory d, if so. */
  function NewNameError(t: Table, d: InodeId, name: string): Option<FsError> {
    if d !in t then Some(FsError.Stale)
    else if !IsDir(t, d) then Some(NotDirectory)
    else if LookupIn(t, d, name).Done? then Some(AlreadyExists)
    else None
  }

  ghost predicate Empty(t: Table, d: InodeId) {
    forall name, c :: !HasEntry(t, d, name, c)
  }

  /** The inode that `name` stands for in d. */
  function LookupIn(t: Table, d: InodeId, name: string): FsResult<InodeId> {
    if d !in t then Err(FsError.Stale)
    else if !t[d].data.Directory? then Err(NotDirectory)
    else if name !in t[d].data.entries then Err(NotFound)
    else Done(t[d].data.entries[name])
  }

  ghost function RemoveError(t: Table, d: InodeId, name: string): Option<FsError> {
    match LookupIn(t, d, name)
    case Err(e) => Some(e)
    case Done(c) => if IsDir(t, c) && !Empty(t, c) then Some(NotEmpty) else None
  }

  /** Why `child` cannot take the place of `victim`, if so. */
  ghost function ReplaceError(t: Table, child: InodeId, victim: InodeId): Option<FsError> {
    if IsDir(t, child) && IsDir(t, victim) then (if Empty(t, victim) then None else Some(NotEmpty))
    else if IsDir(t, child) then Some(NotDirectory)
    else if IsDir(t, victim) then Some(IsDirectory)
    else None
  }

  /** An error, or the inode to move, or nothing when both names already stand for one inode. */
  ghost function RenameVerdict(t: Table, from: InodeId, fromName: string, to: InodeId, toName: string)
    : FsResult<Option<InodeId>>
  {
    match LookupIn(t, from, fromName)
    case Err(e) => Err(e)
    case Done(child) =>
      if IsDir(t, child) && Descends(t, to, child) then Err(InvalidInput)
      else match LookupIn(t, to, toName)
        case Err(NotFound) => Done(Some(child))
        case Err(e) => Err(e)
        case Done(victim) =>
          if victim == child then Done(None)
          else if ReplaceError(t, child, victim).Some? then Err(ReplaceError(t, child, victim).value)
          else Done(Some(child))
  }

  // ---- The same, said of entries and ancestry ----

  /** LOOKUP finds exactly the entry. */
  lemma LookupAnswers(t: Table, d: InodeId, name: string, c: InodeId)
    requires Typed(t)
    ensures LookupIn(t, d, name) == Done(c) <==> HasEntry(t, d, name, c)
    ensures LookupIn(t, d, name) == Err(NotFound) <==> IsDir(t, d) && forall x :: !HasEntry(t, d, name, x)
    ensures LookupIn(t, d, name) == Err(NotDirectory) <==> d in t && !IsDir(t, d)
    ensures LookupIn(t, d, name) == Err(FsError.Stale) <==> d !in t
  {
    assert name in (if IsDir(t, d) then t[d].data.entries else map[]) ==> HasEntry(t, d, name, t[d].data.entries[name]);
  }

  /** A new name may be put in d exactly if d is a directory without an entry of that name. */
  lemma NewNameAnswers(t: Table, d: InodeId, name: string)
    requires Typed(t)
    ensures NewNameError(t, d, name) == None <==> IsDir(t, d) && forall c :: !HasEntry(t, d, name, c)
    ensures NewNameError(t, d, name) == Some(AlreadyExists) <==> exists c :: HasEntry(t, d, name, c)
    ensures NewNameError(t, d, name) == Some(NotDirectory) <==> d in t && !IsDir(t, d)
    ensures NewNameError(t, d, name) == Some(FsError.Stale) <==> d !in t
  {
    LookupAnswers(t, d, name, ROOT);
    if LookupIn(t, d, name).Done? {
      assert HasEntry(t, d, name, LookupIn(t, d, name).value);
    }
  }

  /** A size is set exactly on a file, up to the limit. */
  lemma SizeAnswers(data: InodeData, size: Option<nat>, sized: InodeData)
    ensures SetSize(data, size) == Done(sized)
       <==> (size == None && sized == data) || (data.File? && size == Some(FileSize(sized)) && sized.File? && FileSize(sized) <= 67108864)
    ensures SetSize(data, size) == Err(FileTooLarge) <==> data.File? && size.Some? && size.value > 67108864
    ensures SetSize(data, size) == Err(InvalidInput) <==> !data.File? && size.Some?
  {
  }

  function FileSize(data: InodeData): nat {
    if data.File? then data.length else 0
  }

  /** REMOVE succeeds exactly on an entry whose inode has no entries itself. */
  lemma RemoveAnswers(t: Table, d: InodeId, name: string)
    requires Tree(t)
    ensures RemoveError(t, d, name) == None <==> exists c :: HasEntry(t, d, name, c) && forall n, x :: !HasEntry(t, c, n, x)
    ensures RemoveError(t, d, name) == Some(NotEmpty) <==> exists c, n, x :: HasEntry(t, d, name, c) && HasEntry(t, c, n, x)
    ensures RemoveError(t, d, name) == Some(NotFound) <==> IsDir(t, d) && forall c :: !HasEntry(t, d, name, c)
    ensures RemoveError(t, d, name) == Some(NotDirectory) <==> d in t && !IsDir(t, d)
    ensures RemoveError(t, d, name) == Some(FsError.Stale) <==> d !in t
  {
    var found := LookupIn(t, d, name);
    LookupAnswers(t, d, name, if found.Done? then found.value else ROOT);
  }

  /** `child` may take the place of another inode: both or neither are directories, and the other has no entries. */
  ghost predicate MayReplace(t: Table, child: InodeId, victim: InodeId) {
    (IsDir(t, victim) <==> IsDir(t, child)) && forall n, x :: !HasEntry(t, victim, n, x)
  }

  lemma ReplaceAnswers(t: Table, child: InodeId, victim: InodeId)
    requires Typed(t)
    ensures ReplaceError(t, child, victim) == None <==> MayReplace(t, child, victim)
    ensures ReplaceError(t, child, victim) == Some(NotEmpty)
       <==> IsDir(t, child) && IsDir(t, victim) && exists n, x :: HasEntry(t, victim, n, x)
    ensures ReplaceError(t, child, victim) == Some(NotDirectory) <==> IsDir(t, child) && !IsDir(t, victim)
    ensures ReplaceError(t, child, victim) == Some(IsDirectory) <==> !IsDir(t, child) && IsDir(t, victim)
  {
  }

  /** A directory would be moved below itself. */
  ghost predicate IntoItself(t: Table, child: InodeId, to: InodeId) {
    IsDir(t, child) && Descends(t, to, child)
  }

  /**
    When RENAME moves an inode: the source name stands for it, the target is a directory, not below
    it, and what the target name stands for, if anything, is another inode it may replace.
   */
  ghost predicate Movable(t: Table, from: InodeId, fromName: string, to: InodeId, toName: string, child: InodeId) {
    && HasEntry(t, from, fromName, child) && IsDir(t, to) && !IntoItself(t, child, to)
    && forall victim | HasEntry(t, to, toName, victim) :: victim != child && MayReplace(t, child, victim)
  }

  lemma RenameMovesIff(t: Table, from: InodeId, fromName: string, to: InodeId, toName: string, child: InodeId)
    requires Typed(t)
    ensures RenameVerdict(t, from, fromName, to, toName) == Done(Some(child)) <==> Movable(t, from, fromName, to, toName, child)
  {
    LookupAnswers(t, from, fromName, child);
    var target := LookupIn(t, to, toName);
    LookupAnswers(t, to, toName, if target.Done? then target.value else ROOT);
    if target.Done? {
      ReplaceAnswers(t, child, target.value);
    }
  }

  /** Both names stand for one inode already. */
  ghost predicate Idle(t: Table, from: InodeId, fromName: string, to: InodeId, toName: string, child: InodeId) {
    HasEntry(t, from, fromName, child) && HasEntry(t, to, toName, child) && !IntoItself(t, child, to)
  }

  /** RENAME succeeds without doing anything exactly when both names stand for one inode. */
  lemma RenameIdleIff(t: Table, from: InodeId, fromName: string, to: InodeId, toName: string)
    requires Typed(t)
    ensures RenameVerdict(t, from, fromName, to, toName) == Done(None)
       <==> exists c :: Idle(t, from, fromName, to, toName, c)
  {
    var source, target := LookupIn(t, from, fromName), LookupIn(t, to, toName);
    LookupAnswers(t, from, fromName, if source.Done? then source.value else ROOT);
    LookupAnswers(t, to, toName, if target.Done? then target.value else ROOT);
    if source.Done? && target.Done? {
      ReplaceAnswers(t, source.value, target.value);
      assert RenameVerdict(t, from, fromName, to, toName) == Done(None) ==> Idle(t, from, fromName, to, toName, source.value);
    }
  }

  lemma RenameSucceedsIff(t: Table, from: InodeId, fromName: string, to: InodeId, toName: string)
    requires Typed(t)
    ensures RenameVerdict(t, from, fromName, to, toName).Done?
       <==> exists c :: Movable(t, from, fromName, to, toName, c) || Idle(t, from, fromName, to, toName, c)
  {
    var v := RenameVerdict(t, from, fromName, to, toName);
    RenameIdleIff(t, from, fromName, to, toName);
    forall c: InodeId
      ensures v == Done(Some(c)) <==> Movable(t, from, fromName, to, toName, c)
    {
      RenameMovesIff(t, from, fromName, to, toName, c);
    }
    assert v.Done? && v.value.Some? ==> Movable(t, from, fromName, to, toName, v.value.value);
  }

  /** The target name stands for another inode, one with entries. */
  ghost predicate TargetIsFull(t: Table, to: InodeId, toName: string, child: InodeId) {
    exists x: InodeId, n, y :: x != child && HasEntry(t, to, toName, x) && HasEntry(t, x, n, y)
  }

  /** A directory would take the place of something else. */
  ghost predicate TargetIsNoDirectory(t: Table, to: InodeId, toName: string, child: InodeId) {
    IsDir(t, child) && exists x: InodeId :: x != child && HasEntry(t, to, toName, x) && !IsDir(t, x)
  }

  /** And each of its errors, in the order in which they take precedence. */
  lemma RenameFails(t: Table, from: InodeId, fromName: string, to: InodeId, toName: string, child: InodeId)
    requires Typed(t)
    ensures RenameVerdict(t, from, fromName, to, toName) == Err(NotFound) <==> IsDir(t, from) && forall c :: !HasEntry(t, from, fromName, c)
    ensures from !in t ==> RenameVerdict(t, from, fromName, to, toName) == Err(FsError.Stale)
    ensures from in t && !IsDir(t, from) ==> RenameVerdict(t, from, fromName, to, toName) == Err(NotDirectory)
    ensures HasEntry(t, from, fromName, child) ==>
              var v := RenameVerdict(t, from, fromName, to, toName);
              && (v == Err(InvalidInput) <==> IntoItself(t, child, to))
              && (v == Err(FsError.Stale) <==> !IntoItself(t, child, to) && to !in t)
              && (v == Err(NotEmpty) <==> !IntoItself(t, child, to) && IsDir(t, child) && TargetIsFull(t, to, toName, child))
              && (v == Err(IsDirectory) <==> !IsDir(t, child) && exists x :: HasEntry(t, to, toName, x) && IsDir(t, x))
              && (v == Err(NotDirectory) <==> !IntoItself(t, child, to) && ((to in t && !IsDir(t, to)) || TargetIsNoDirectory(t, to, toName, child)))
  {
    LookupAnswers(t, from, fromName, child);
    var target := LookupIn(t, to, toName);
    LookupAnswers(t, to, toName, if target.Done? then target.value else ROOT);
    if target.Done? {
      ReplaceAnswers(t, child, target.value);
    }
  }

  class MemFs {
    var inodes: Table
    var nextId: nat

    ghost predicate Valid()
      reads this
    {
      Tree(inodes) && Counted(inodes) && forall id | id in inodes :: id < nextId
    }

    constructor ()
      ensures Valid() && inodes.Keys == {ROOT}
    {
      inodes := map[ROOT := Inode(DirectoryType, 2, None, Directory(map[]))];
      nextId := 2;
      new;
      assert RootedAt(inodes, ROOT, 0);
      assert Subdirectories(inodes, ROOT) == {};
    }

    /** Set every count from the entries, visiting directories and names in any order. */
    method RecomputeLinkCounts()
      requires Typed(inodes)
      modifies this`inodes
      ensures SameButCounts(old(inodes), inodes) && Counted(inodes)
    {
      ghost var t := inodes;
      inodes := map id | id in inodes :: inodes[id].(linkCount := if inodes[id].objectType.DirectoryType? then 2 else 0);
      ghost var seen: set<(InodeId, string)> := {};
      forall id | id in t
        ensures inodes[id].linkCount == SeenCount(t, {}, id)
      {
        SeeNone(t, id);
      }
      var directories := set id | id in inodes && inodes[id].data.Directory?;
      while directories != {}
        invariant CountedSoFar(t, inodes, seen)
        invariant forall id | id in directories :: id in t && t[id].data.Directory?
        invariant forall d: InodeId, name: string, c: InodeId | HasEntry(t, d, name, c) ::
                    (d, name) in seen <==> d !in directories
        decreases |directories|
      {
        var d: InodeId :| d in directories;
        assert forall name | name in t[d].data.entries :: HasEntry(t, d, name, t[d].data.entries[name]);
        seen := CountEntries(d, t, seen);
        directories := directories - {d};
      }
      forall id | id in t
        ensures inodes[id].linkCount == Links(t, id)
      {
        SeeAll(t, seen, id);
      }
      CountsDoNotMatter(t, inodes);
    }

    method CountEntries(d: InodeId, ghost t: Table, ghost before: set<(InodeId, string)>)
      returns (ghost seen: set<(InodeId, string)>)
      requires Typed(t) && CountedSoFar(t, inodes, before) && d in t && t[d].data.Directory?
      requires forall name | name in t[d].data.entries :: (d, name) !in before
      modifies this`inodes
      ensures CountedSoFar(t, inodes, seen)
      ensures seen == before + set name | name in t[d].data.entries :: (d, name)
    {
      var entries := inodes[d].data.entries;
      var names := entries.Keys;
      seen := before;
      while names != {}
        invariant names <= entries.Keys && entries == t[d].data.entries
        invariant CountedSoFar(t, inodes, seen)
        invariant seen == before + set name | name in entries && name !in names :: (d, name)
        decreases |names|
      {
        var name :| name in names;
        var child := entries[name];
        CountOne(t, inodes, seen, d, name, child);
        if child in inodes {
          inodes := Bump(inodes, if inodes[child].objectType.DirectoryType? then d else child);
        }
        seen := seen + {(d, name)};
        names := names - {name};
      }
    }

    /** The parent walk, with the size of the table as its fuel. */
    method DirectoryDescendsFrom(descendant: InodeId, ancestor: InodeId) returns (r: bool)
      requires Tree(inodes)
      ensures r <==> Descends(inodes, descendant, ancestor)
    {
      var current := Some(descendant);
      var remaining: nat := |inodes|;
      assert ROOT in inodes;
      ghost var left: nat := StepsLeft(inodes, current);
      if IsDir(inodes, descendant) {
        DepthBound(inodes, descendant, left);
      }
      while current.Some?
        invariant Descends(inodes, descendant, ancestor)
             <==> current.Some? && Descends(inodes, current.value, ancestor)
        invariant current.Some? && IsDir(inodes, current.value) ==> RootedAt(inodes, current.value, left)
        invariant current.Some? ==> left < remaining
        decreases current.Some?, remaining
      {
        var id := current.value;
        DescendsStep(inodes, id, ancestor);
        if id == ancestor {
          return true;
        }
        if remaining == 0 {
          break;
        }
        remaining := remaining - 1;
        left := if left > 0 then left - 1 else 0;
        current := if id in inodes && inodes[id].objectType.DirectoryType? then inodes[id].parent else None;
      }
      return false;
    }

    /** Drop an inode that lost a name: a directory always, anything else once no name is left. */
    method RemoveIfUnlinked(id: InodeId)
      modifies this`inodes
      ensures inodes == (if id in old(inodes) && (IsDir(old(inodes), id) || !MemFsTree.Named(old(inodes), id))
                         then old(inodes) - {id} else old(inodes))
    {
      var linked := exists d | d in inodes :: inodes[d].data.Directory? && id in inodes[d].data.entries.Values;
      LinkedIsNamed(inodes, id);
      if id in inodes && (inodes[id].objectType.DirectoryType? || !linked) {
        inodes := inodes - {id};
      }
    }

    /** The checks on the directory and the name of a new entry, in the order they are made. */
    method CheckNewName(parent: InodeId, name: string) returns (error: Option<FsError>)
      requires Typed(inodes)
      ensures error == NewNameError(inodes, parent, name)
      ensures error == None ==> IsDir(inodes, parent) && inodes[parent].data.Directory? && name !in inodes[parent].data.entries
    {
      if parent !in inodes {
        return Some(FsError.Stale);
      }
      if !inodes[parent].objectType.DirectoryType? {
        return Some(NotDirectory);
      }
      if name in inodes[parent].data.entries {
        return Some(AlreadyExists);
      }
      return None;
    }

    /** Put a new inode under a new name: the common part of CREATE and SYMLINK. */
    method CreateInode(parent: InodeId, name: string, objectType: ObjectType, data: InodeData, size: Option<nat>)
      returns (r: FsResult<InodeId>)
      requires Valid()
      requires match objectType case FileType => data.File? case DirectoryType => data == Directory(map[])
                                case SymlinkType => data.Symlink?
      modifies this
      ensures Valid()
      ensures NewNameError(old(inodes), parent, name).Some? ==> r == Err(NewNameError(old(inodes), parent, name).value)
      ensures NewNameError(old(inodes), parent, name).None? && SetSize(data, size).Err? ==> r == Err(SetSize(data, size).error)
      ensures r.Done? <==> NewNameError(old(inodes), parent, name).None? && SetSize(data, size).Done?
      ensures r.Err? ==> inodes == old(inodes)
      ensures r.Done? ==> r.value !in old(inodes) && r.value in inodes && SameContents(old(inodes), inodes)
      ensures r.Done? ==> inodes[r.value].objectType == objectType && inodes[r.value].data == SetSize(data, size).value
      ensures r.Done? ==> EntriesAfter(old(inodes), inodes, None, Some((parent, name)), r.value)
    {
      var newId := nextId;
      nextId := nextId + 1;
      var error := CheckNewName(parent, name);
      if error.Some? {
        return Err(error.value);
      }
      var sized := SetSize(data, size);
      if sized.Err? {
        return Err(sized.error);
      }
      var inode := Inode(objectType, if objectType.DirectoryType? then 2 else 1, Some(parent), sized.value);
      AddInode(parent, name, newId, inode);
      return Done(newId);
    }

    method AddInode(parent: InodeId, name: string, id: InodeId, inode: Inode)
      requires Tree(inodes) && IsDir(inodes, parent) && inodes[parent].data.Directory? && name !in inodes[parent].data.entries
      requires id !in inodes && inode.parent == Some(parent)
      requires match inode.objectType case FileType => inode.data.File? case DirectoryType => inode.data == Directory(map[])
                                      case SymlinkType => inode.data.Symlink?
      modifies this`inodes
      ensures Tree(inodes) && Counted(inodes) && SameContents(old(inodes), inodes) && inodes.Keys == old(inodes).Keys + {id}
      ensures inodes[id].objectType == inode.objectType && inodes[id].data == inode.data
      ensures EntriesAfter(old(inodes), inodes, None, Some((parent, name)), id)
    {
      ghost var t := inodes;
      EntryAddedTyped(t, parent, name, id);
      inodes := WithEntry(inodes, parent, name, id);
      inodes := inodes[id := inode];
      ghost var edited := inodes;
      RecomputeLinkCounts();
      CreateEdit(t, edited, inodes, parent, name, id, inode);
    }

    method Link(source: InodeId, parent: InodeId, name: string) returns (r: FsResult<()>)
      requires Valid()
      modifies this`inodes
      ensures Valid()
      ensures r == if source !in old(inodes) then Err(FsError.Stale)
                   else if IsDir(old(inodes), source) then Err(IsDirectory)
                   else if NewNameError(old(inodes), parent, name).Some? then Err(NewNameError(old(inodes), parent, name).value)
                   else Done(())
      ensures r.Done? <==> source in old(inodes) && !IsDir(old(inodes), source)
                           && IsDir(old(inodes), parent) && forall c :: !HasEntry(old(inodes), parent, name, c)
      ensures r.Err? ==> inodes == old(inodes)
      ensures r.Done? ==> inodes.Keys == old(inodes).Keys && SameContents(old(inodes), inodes)
      ensures r.Done? ==> EntriesAfter(old(inodes), inodes, None, Some((parent, name)), source)
    {
      NewNameAnswers(inodes, parent, name);
      if source !in inodes {
        return Err(FsError.Stale);
      }
      if inodes[source].objectType.DirectoryType? {
        return Err(IsDirectory);
      }
      var error := CheckNewName(parent, name);
      if error.Some? {
        return Err(error.value);
      }
      AddLink(source, parent, name);
      return Done(());
    }

    method AddLink(source: InodeId, parent: InodeId, name: string)
      requires Tree(inodes) && IsDir(inodes, parent) && inodes[parent].data.Directory? && name !in inodes[parent].data.entries
      requires source in inodes && !IsDir(inodes, source)
      modifies this`inodes
      ensures Tree(inodes) && Counted(inodes) && inodes.Keys == old(inodes).Keys && SameContents(old(inodes), inodes)
      ensures EntriesAfter(old(inodes), inodes, None, Some((parent, name)), source)
    {
      ghost var t := inodes;
      EntryAddedTyped(t, parent, name, source);
      inodes := WithEntry(inodes, parent, name, source);
      ghost var edited := inodes;
      RecomputeLinkCounts();
      LinkEdit(t, edited, inodes, parent, name, source);
    }

    method Remove(parent: InodeId, name: string) returns (r: FsResult<()>)
      requires Valid()
      modifies this`inodes
      ensures Valid()
      ensures r == match RemoveError(old(inodes), parent, name) case Some(e) => Err(e) case None => Done(())
      ensures r.Done? <==> exists c :: HasEntry(old(inodes), parent, name, c) && forall n, x :: !HasEntry(old(inodes), c, n, x)
      ensures r.Err? ==> inodes == old(inodes)
      ensures r.Done? ==> SameContents(old(inodes), inodes) && inodes.Keys <= old(inodes).Keys
      ensures r.Done? ==> EntriesAfter(old(inodes), inodes, Some((parent, name)), None, ROOT)
    {
      RemoveAnswers(inodes, parent, name);
      var found := LookupIn(inodes, parent, name);
      if found.Err? {
        return Err(found.error);
      }
      var child := found.value;
      assert HasEntry(inodes, parent, name, child);
      EmptyMeansNoEntries(inodes, child);
      if child in inodes && inodes[child].data.Directory? && inodes[child].data.entries != map[] {
        return Err(NotEmpty);
      }
      RemoveEntry(parent, name, child);
      return Done(());
    }

    method RemoveEntry(parent: InodeId, name: string, child: InodeId)
      requires Tree(inodes) && HasEntry(inodes, parent, name, child) && (IsDir(inodes, child) ==> Empty(inodes, child))
      modifies this`inodes
      ensures Tree(inodes) && Counted(inodes) && SameContents(old(inodes), inodes) && inodes.Keys <= old(inodes).Keys
      ensures EntriesAfter(old(inodes), inodes, Some((parent, name)), None, ROOT)
    {
      ghost var t := inodes;
      Unlink(parent, name, child);
      RecountRemoved(t, parent, name, child);
    }

    method RecountRemoved(ghost t: Table, ghost parent: InodeId, ghost name: string, ghost child: InodeId)
      requires Tree(t) && HasEntry(t, parent, name, child) && Unlinked(t, inodes, parent, name, child)
      modifies this`inodes
      ensures Tree(inodes) && Counted(inodes) && SameContents(t, inodes) && inodes.Keys <= t.Keys
      ensures EntriesAfter(t, inodes, Some((parent, name)), None, ROOT)
    {
      ghost var edited := inodes;
      RecomputeLinkCounts();
      RemoveCounted(t, edited, inodes, parent, name, child);
    }

    /** Take the entry out, and the inode if that was its last name or it is a directory. */
    method Unlink(parent: InodeId, name: string, child: InodeId)
      requires Tree(inodes) && HasEntry(inodes, parent, name, child) && (IsDir(inodes, child) ==> Empty(inodes, child))
      modifies this`inodes
      ensures Unlinked(old(inodes), inodes, parent, name, child)
    {
      ghost var t := inodes;
      inodes := WithoutEntry(inodes, parent, name);
      ghost var cut := inodes;
      RemoveIfUnlinked(child);
      RemoveEdit(t, cut, inodes, parent, name, child);
    }

    method Rename(fromDir: InodeId, fromName: string, toDir: InodeId, toName: string) returns (r: FsResult<()>)
      requires Valid()
      modifies this`inodes
      ensures Valid()
      ensures r == match RenameVerdict(old(inodes), fromDir, fromName, toDir, toName)
                   case Err(e) => Err(e)
                   case Done(_) => Done(())
      ensures r.Done? <==> (exists c :: Movable(old(inodes), fromDir, fromName, toDir, toName, c)
                                        || Idle(old(inodes), fromDir, fromName, toDir, toName, c))
      ensures r.Err? || RenameVerdict(old(inodes), fromDir, fromName, toDir, toName) == Done(None) ==> inodes == old(inodes)
      ensures RenameVerdict(old(inodes), fromDir, fromName, toDir, toName).Done? ==>
                SameContents(old(inodes), inodes) && inodes.Keys <= old(inodes).Keys
      ensures match RenameVerdict(old(inodes), fromDir, fromName, toDir, toName)
              case Done(Some(child)) =>
                EntriesAfter(old(inodes), inodes, Some((fromDir, fromName)), Some((toDir, toName)), child)
              case _ => true
    {
      ghost var t := inodes;
      RenameSucceedsIff(t, fromDir, fromName, toDir, toName);
      var verdict := CheckRename(fromDir, fromName, toDir, toName);
      if verdict.Err? {
        return Err(verdict.error);
      }
      if verdict.value == None {
        return Done(());
      }
      var child := verdict.value.value;
      var target := LookupIn(inodes, toDir, toName);
      var replaced := if target.Done? then Some(target.value) else None;
      VerdictAllows(t, fromDir, fromName, toDir, toName, child, replaced);
      Move(fromDir, fromName, toDir, toName, child, replaced);
      return Done(());
    }

    /** The checks of RENAME, in the order they are made. */
    method CheckRename(fromDir: InodeId, fromName: string, toDir: InodeId, toName: string)
      returns (verdict: FsResult<Option<InodeId>>)
      requires Tree(inodes)
      ensures verdict == RenameVerdict(inodes, fromDir, fromName, toDir, toName)
    {
      var found := LookupIn(inodes, fromDir, fromName);
      if found.Err? {
        return Err(found.error);
      }
      var child := found.value;
      assert HasEntry(inodes, fromDir, fromName, child);
      var childIsDir := inodes[child].objectType.DirectoryType?;
      if childIsDir {
        var below := DirectoryDescendsFrom(toDir, child);
        if below {
          return Err(InvalidInput);
        }
      }
      var target := LookupIn(inodes, toDir, toName);
      if target.Err? {
        return if target.error == NotFound then Done(Some(child)) else Err(target.error);
      }
      if target.value == child {
        return Done(None);
      }
      assert HasEntry(inodes, toDir, toName, target.value);
      EmptyMeansNoEntries(inodes, target.value);
      var victim := inodes[target.value];
      if childIsDir && victim.objectType.DirectoryType? {
        if victim.data.entries != map[] {
          return Err(NotEmpty);
        }
      } else if childIsDir {
        return Err(NotDirectory);
      } else if victim.objectType.DirectoryType? {
        return Err(IsDirectory);
      }
      return Done(Some(child));
    }

    method Move(fromDir: InodeId, fromName: string, toDir: InodeId, toName: string, child: InodeId,
                replaced: Option<InodeId>)
      requires MayRename(inodes, fromDir, fromName, toDir, toName, child, replaced)
      modifies this`inodes
      ensures Tree(inodes) && Counted(inodes) && SameContents(old(inodes), inodes) && inodes.Keys <= old(inodes).Keys
      ensures EntriesAfter(old(inodes), inodes, Some((fromDir, fromName)), Some((toDir, toName)), child)
    {
      ghost var t := inodes;
      Relink(fromDir, fromName, toDir, toName, child, replaced);
      RecountRenamed(t, fromDir, fromName, toDir, toName, child, replaced);
    }

    method RecountRenamed(ghost t: Table, ghost fromDir: InodeId, ghost fromName: string, ghost toDir: InodeId,
                          ghost toName: string, ghost child: InodeId, ghost replaced: Option<InodeId>)
      requires Renamed(t, inodes, fromDir, fromName, toDir, toName, child, replaced)
      modifies this`inodes
      ensures Tree(inodes) && Counted(inodes) && SameContents(t, inodes) && inodes.Keys <= t.Keys
      ensures EntriesAfter(t, inodes, Some((fromDir, fromName)), Some((toDir, toName)), child)
    {
      ghost var edited := inodes;
      RecomputeLinkCounts();
      RenameCounted(t, edited, inodes, fromDir, fromName, toDir, toName, child, replaced);
    }

    method Relink(fromDir: InodeId, fromName: string, toDir: InodeId, toName: string, child: InodeId,
                  replaced: Option<InodeId>)
      requires MayRename(inodes, fromDir, fromName, toDir, toName, child, replaced)
      modifies this`inodes
      ensures Renamed(old(inodes), inodes, fromDir, fromName, toDir, toName, child, replaced)
    {
      ghost var t := inodes;
      inodes := WithEntry(WithoutEntry(inodes, fromDir, fromName), toDir, toName, child);
      inodes := Reparented(inodes, child, fromDir, toDir);
      ghost var moved := inodes;
      if replaced.Some? {
        RemoveIfUnlinked(replaced.value);
      }
      RenameEdit(t, moved, inodes, fromDir, fromName, toDir, toName, child, replaced);
    }
  }

  /** How far the walk is from the root; nothing is left of it outside the directories. */
  ghost function StepsLeft(t: Table, current: Option<InodeId>): (n: nat)
    requires Tree(t)
    ensures current.Some? && IsDir(t, current.value) ==> RootedAt(t, current.value, n)
    ensures current.Some? && !IsDir(t, current.value) ==> n == 0
  {
    if current.Some? && IsDir(t, current.value) then
      assert Rooted(t, current.value);
      var n: nat :| RootedAt(t, current.value, n);
      n
    else 0
  }

  /** The table CREATE leaves behind. */
  lemma CreateEdit(t: Table, edited: Table, t': Table, p: InodeId, name: string, id: InodeId, inode: Inode)
    requires Tree(t) && IsDir(t, p) && name !in t[p].data.entries && id !in t && inode.parent == Some(p)
    requires match inode.objectType case FileType => inode.data.File? case DirectoryType => inode.data == Directory(map[])
                                    case SymlinkType => inode.data.Symlink?
    requires edited == WithEntry(t, p, name, id)[id := inode] && SameButCounts(edited, t')
    ensures Tree(t') && SameContents(t, t') && t'.Keys == t.Keys + {id}
    ensures t'[id].objectType == inode.objectType && t'[id].data == inode.data
    ensures EntriesAfter(t, t', None, Some((p, name)), id)
  {
    CountsDoNotMatter(edited, t');
    CreatedEntries(t, edited, p, name, id, inode);
    CreateKeepsTree(t, t', p, name, id);
  }

  lemma CreatedEntries(t: Table, edited: Table, p: InodeId, name: string, id: InodeId, inode: Inode)
    requires Tree(t) && IsDir(t, p) && name !in t[p].data.entries && id !in t
    requires match inode.objectType case FileType => inode.data.File? case DirectoryType => inode.data == Directory(map[])
                                    case SymlinkType => inode.data.Symlink?
    requires edited == WithEntry(t, p, name, id)[id := inode]
    ensures Typed(edited)
    ensures forall d, n, c :: HasEntry(edited, d, n, c) <==> HasEntry(t, d, n, c) || (d == p && n == name && c == id)
  {
    EntryAdded(t, p, name, id);
    forall d, n, c
      ensures HasEntry(edited, d, n, c) <==> HasEntry(t, d, n, c) || (d == p && n == name && c == id)
    {
      assert HasEntry(edited, d, n, c) <==> d != id && HasEntry(WithEntry(t, p, name, id), d, n, c);
    }
  }

  lemma OnlyEntriesTyped(t: Table, t': Table, d: InodeId)
    requires Typed(t) && OnlyEntriesOf(t, t', d)
    ensures Typed(t') && SameContents(t, t')
  {
  }

  lemma EntryAddedTyped(t: Table, d: InodeId, name: string, c: InodeId)
    requires Typed(t) && d in t && t[d].data.Directory?
    ensures Typed(WithEntry(t, d, name, c))
  {
  }

  /** The table LINK leaves behind. */
  lemma LinkEdit(t: Table, edited: Table, t': Table, p: InodeId, name: string, source: InodeId)
    requires Tree(t) && IsDir(t, p) && name !in t[p].data.entries && source in t && !IsDir(t, source)
    requires edited == WithEntry(t, p, name, source) && SameButCounts(edited, t')
    ensures Tree(t') && SameContents(t, t') && t'.Keys == t.Keys
    ensures EntriesAfter(t, t', None, Some((p, name)), source)
  {
    CountsDoNotMatter(edited, t');
    EntryAdded(t, p, name, source);
    OnlyEntriesTyped(t, edited, p);
    LinkKeepsTree(t, t', p, name, source);
  }

  lemma EmptyMeansNoEntries(t: Table, c: InodeId)
    ensures Empty(t, c) <==> !(c in t && t[c].data.Directory?) || t[c].data.entries == map[]
  {
    if !(c in t && t[c].data.Directory?) {
    } else if name :| name in t[c].data.entries {
      assert HasEntry(t, c, name, t[c].data.entries[name]);
    } else {
      assert t[c].data.entries == map[];
    }
  }

  /** The table REMOVE leaves behind, before and after counting. */
  ghost predicate Unlinked(t: Table, t': Table, p: InodeId, name: string, child: InodeId) {
    && Typed(t') && SameContents(t, t') && Dropped(t, t', child)
    && (forall id | id in t' :: t'[id].parent == t[id].parent)
    && EntriesAfter(t, t', Some((p, name)), None, child)
  }

  lemma RemoveEdit(t: Table, cut: Table, edited: Table, p: InodeId, name: string, child: InodeId)
    requires Tree(t) && HasEntry(t, p, name, child) && (IsDir(t, child) ==> Empty(t, child))
    requires cut == WithoutEntry(t, p, name)
    requires edited == if child in cut && (IsDir(cut, child) || !MemFsTree.Named(cut, child)) then cut - {child} else cut
    ensures Unlinked(t, edited, p, name, child)
  {
    EntryDropped(t, p, name);
    OnlyEntriesTyped(t, cut, p);
    forall d, n, c
      ensures HasEntry(edited, d, n, c) <==> HasEntry(cut, d, n, c)
    {
      assert HasEntry(cut, d, n, c) ==> HasEntry(t, d, n, c);
    }
    NamedFrame(cut, edited, child);
  }

  lemma NamedFrame(t: Table, t': Table, id: InodeId)
    requires forall d, n, c :: HasEntry(t', d, n, c) <==> HasEntry(t, d, n, c)
    ensures MemFsTree.Named(t', id) <==> MemFsTree.Named(t, id)
  {
    if d, n :| HasEntry(t, d, n, id) {
      assert HasEntry(t', d, n, id);
    }
    if d, n :| HasEntry(t', d, n, id) {
      assert HasEntry(t, d, n, id);
    }
  }

  lemma RemoveCounted(t: Table, edited: Table, t': Table, p: InodeId, name: string, child: InodeId)
    requires Tree(t) && HasEntry(t, p, name, child) && Unlinked(t, edited, p, name, child) && SameButCounts(edited, t')
    ensures Tree(t') && SameContents(t, t') && t'.Keys <= t.Keys
    ensures EntriesAfter(t, t', Some((p, name)), None, ROOT)
  {
    CountsDoNotMatter(edited, t');
    NamedFrame(edited, t', child);
    RemoveKeepsTree(t, t', p, name, child);
  }

  /** The parent field RENAME sets: the entry of a directory that stays in place already names its parent. */
  function Reparented(t: Table, child: InodeId, from: InodeId, to: InodeId): Table
    requires child in t
  {
    if IsDir(t, child) && from != to then t[child := t[child].(parent := Some(to))] else t
  }

  ghost predicate MayRename(t: Table, from: InodeId, fromName: string, to: InodeId, toName: string,
                            child: InodeId, victim: Option<InodeId>)
  {
    && Tree(t) && HasEntry(t, from, fromName, child) && IsDir(t, to)
    && (IsDir(t, child) ==> !Descends(t, to, child))
    && match victim
       case None => toName !in t[to].data.entries
       case Some(v) => && v != child && HasEntry(t, to, toName, v)
                       && (IsDir(t, v) <==> IsDir(t, child)) && (IsDir(t, v) ==> Empty(t, v))
  }

  lemma VerdictAllows(t: Table, from: InodeId, fromName: string, to: InodeId, toName: string,
                      child: InodeId, victim: Option<InodeId>)
    requires Tree(t) && RenameVerdict(t, from, fromName, to, toName) == Done(Some(child))
    requires victim == if LookupIn(t, to, toName).Done? then Some(LookupIn(t, to, toName).value) else None
    ensures MayRename(t, from, fromName, to, toName, child, victim)
  {
  }

  lemma PlacedEntries(t: Table, placed: Table, from: InodeId, fromName: string, to: InodeId, toName: string, child: InodeId)
    requires Typed(t) && from in t && t[from].data.Directory? && to in t && t[to].data.Directory?
    requires placed == WithEntry(WithoutEntry(t, from, fromName), to, toName, child)
    ensures Typed(placed) && SameContents(t, placed) && placed.Keys == t.Keys
    ensures EntriesAfter(t, placed, Some((from, fromName)), Some((to, toName)), child)
    ensures forall id | id in t :: placed[id].parent == t[id].parent
  {
    var cut := WithoutEntry(t, from, fromName);
    EntryDropped(t, from, fromName);
    EntryAdded(cut, to, toName, child);
  }

  /** Setting a parent field changes nothing else. */
  lemma ReparentedSame(t: Table, child: InodeId, from: InodeId, to: InodeId)
    requires Typed(t) && child in t
    ensures var t' := Reparented(t, child, from, to);
            && Typed(t') && SameContents(t, t') && t'.Keys == t.Keys
            && (forall d, n, c :: HasEntry(t', d, n, c) <==> HasEntry(t, d, n, c))
            && (forall id | id in t && !(id == child && IsDir(t, child)) :: t'[id].parent == t[id].parent)
            && (IsDir(t, child) && from != to ==> t'[child].parent == Some(to))
            && (from == to ==> t' == t)
  {
  }

  lemma RenameMoves(t: Table, moved: Table, from: InodeId, fromName: string, to: InodeId, toName: string,
                    child: InodeId, victim: Option<InodeId>)
    requires MayRename(t, from, fromName, to, toName, child, victim)
    requires moved == Reparented(WithEntry(WithoutEntry(t, from, fromName), to, toName, child), child, from, to)
    ensures Typed(moved) && SameContents(t, moved) && moved.Keys == t.Keys
    ensures EntriesAfter(t, moved, Some((from, fromName)), Some((to, toName)), child)
    ensures forall id | id in t && !(id == child && IsDir(t, child)) :: moved[id].parent == t[id].parent
    ensures IsDir(t, child) ==> moved[child].parent == Some(to)
  {
    var placed := WithEntry(WithoutEntry(t, from, fromName), to, toName, child);
    PlacedEntries(t, placed, from, fromName, to, toName, child);
    ReparentedSame(placed, child, from, to);
    assert IsDir(t, child) ==> OneEntry(t, child);
  }

  lemma VictimApart(t: Table, from: InodeId, fromName: string, to: InodeId, toName: string, child: InodeId, v: InodeId)
    requires MayRename(t, from, fromName, to, toName, child, Some(v))
    ensures v != to && v != from
  {
    if IsDir(t, v) {
      DescendsStep(t, to, to);
      var n: nat :| RootedAt(t, v, n);
      assert OneEntry(t, v);
    }
  }

  lemma RenameEdit(t: Table, moved: Table, edited: Table, from: InodeId, fromName: string, to: InodeId, toName: string,
                   child: InodeId, victim: Option<InodeId>)
    requires MayRename(t, from, fromName, to, toName, child, victim)
    requires moved == Reparented(WithEntry(WithoutEntry(t, from, fromName), to, toName, child), child, from, to)
    requires edited == if victim.Some? && victim.value in moved
                          && (IsDir(moved, victim.value) || !MemFsTree.Named(moved, victim.value))
                       then moved - {victim.value} else moved
    ensures Renamed(t, edited, from, fromName, to, toName, child, victim)
  {
    RenameMoves(t, moved, from, fromName, to, toName, child, victim);
    if victim.Some? {
      var v := victim.value;
      VictimApart(t, from, fromName, to, toName, child, v);
      forall d, n, c
        ensures HasEntry(edited, d, n, c) <==> HasEntry(moved, d, n, c)
      {
        assert d == v && (d, n) != (to, toName) && HasEntry(moved, d, n, c) ==> HasEntry(t, d, n, c);
      }
      NamedFrame(moved, edited, v);
    }
  }

  lemma RenameCounted(t: Table, edited: Table, t': Table, from: InodeId, fromName: string, to: InodeId, toName: string,
                      child: InodeId, victim: Option<InodeId>)
    requires Renamed(t, edited, from, fromName, to, toName, child, victim) && SameButCounts(edited, t')
    ensures Tree(t') && SameContents(t, t') && t'.Keys <= t.Keys
    ensures EntriesAfter(t, t', Some((from, fromName)), Some((to, toName)), child)
  {
    CountsDoNotMatter(edited, t');
    if victim.Some? {
      NamedFrame(edited, t', victim.value);
    }
    RenameKeepsTree(t, t', from, fromName, to, toName, child, victim);
  }

  lemma LinkedIsNamed(t: Table, id: InodeId)
    ensures (exists d | d in t :: t[d].data.Directory? && id in t[d].data.entries.Values) <==> MemFsTree.Named(t, id)
  {
    if d :| d in t && t[d].data.Directory? && id in t[d].data.entries.Values {
      var name :| name in t[d].data.entries && t[d].data.entries[name] == id;
      assert HasEntry(t, d, name, id);
    }
    if MemFsTree.Named(t, id) {
      var d, name :| HasEntry(t, d, name, id);
      assert id in t[d].data.entries.Values;
    }
  }
}
