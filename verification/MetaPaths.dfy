/** What the namespace commands do to every path of the tree, and what that means for a
    rename (src/meta_state.cc:177-315 and 580-629). */
module MetaPaths {
  import opened Types
  import opened Namespace
  import opened Ancestry
  import opened MetaSpec
  import opened MetaInvariant

  /** Where a path from the root leads. */
  function Lookup(s: State, p: Path): Option<u64> {
    Resolve(s.dentries, ROOT, p)
  }

  /** A created node appears at its path; every other path leads where it led. */
  lemma CreateAddsOnePath(
      s: State, above: Path, name: string, kind: InodeType, mode: u32, uid: u32, gid: u32, now: i64, p: Path)
    requires Valid(s) && Lookup(s, above).Some? && s.nextInodeId < MAX_64
    requires CreateNode(s, Lookup(s, above).value, name, kind, mode, uid, gid, now).result.Ok?
    ensures Lookup(CreateNode(s, Lookup(s, above).value, name, kind, mode, uid, gid, now).state, p) ==
            if p == above + [name] then Some(s.nextInodeId) else Lookup(s, p)
  {
    var key := DentryKey(Lookup(s, above).value, name);
    ValidHasNoDangling(s);
    AddedPath(s.dentries, key, s.nextInodeId, above, p);
  }

  /** Unlink and rmdir remove exactly the path they name. */
  lemma RemovalRemovesOnePath(s: State, above: Path, name: string, now: i64, p: Path)
    requires Valid(s) && NoDangling(s) && Lookup(s, above).Some?
    ensures var o := Unlink(s, Lookup(s, above).value, name, now);
            o.result.Ok? ==> Lookup(o.state, p) == if p == above + [name] then None else Lookup(s, p)
    ensures var o := Rmdir(s, Lookup(s, above).value, name, now);
            o.result.Ok? ==> Lookup(o.state, p) == if p == above + [name] then None else Lookup(s, p)
  {
    var parent := Lookup(s, above).value;
    var key := DentryKey(parent, name);
    if Unlink(s, parent, name, now).result.Ok? {
      FilesAreLeaves(s, s.dentries[key]);
      RemovedPath(s.dentries, key, above, p);
    }
    if Rmdir(s, parent, name, now).result.Ok? {
      RemovedPath(s.dentries, key, above, p);
    }
  }

  /** The successful renames that are not a rename of an entry onto itself. */
  ghost predicate Renames(s: State, oldKey: DentryKey, newKey: DentryKey, times: Times)
    requires NoDangling(s)
  {
    && Rename(s, oldKey, newKey, times).result.Ok?
    && !(newKey in s.dentries && s.dentries[newKey] == s.dentries[oldKey])
  }

  /** What a rename that goes through has passed. */
  lemma RenameChecks(s: State, oldKey: DentryKey, newKey: DentryKey, times: Times)
    requires NoDangling(s) && Renames(s, oldKey, newKey, times)
    ensures oldKey in s.dentries && s.dentries[oldKey] in s.inodes && oldKey.parent in s.inodes
    ensures newKey.parent in s.inodes && s.inodes[newKey.parent].kind.Directory?
    ensures s.inodes[s.dentries[oldKey]].kind.Directory? ==> !Above(s.dentries, s.dentries[oldKey], newKey.parent)
    ensures newKey in s.dentries ==>
              && s.dentries[newKey] in s.inodes && s.dentries[newKey] != s.dentries[oldKey]
              && ReplaceError(s, s.dentries[oldKey], newKey).None?
    ensures Rename(s, oldKey, newKey, times).state.dentries == Moved(s.dentries - {newKey}, oldKey, newKey)
  {
    assert newKey !in s.dentries ==> s.dentries - {newKey} == s.dentries;
    hide Relinked, WithoutNode, Above, Leaf, ReplaceError;
  }

  lemma RenameEntries(s: State, oldKey: DentryKey, newKey: DentryKey, times: Times)
    requires Valid(s) && NoDangling(s) && Renames(s, oldKey, newKey, times)
    ensures oldKey in s.dentries && !Reaches(s.dentries, s.dentries[oldKey], newKey.parent)
    ensures newKey in s.dentries ==> s.dentries[newKey] != s.dentries[oldKey] && Leaf(s.dentries, s.dentries[newKey])
    ensures oldKey in s.dentries - {newKey} && newKey !in s.dentries - {newKey}
    ensures Rename(s, oldKey, newKey, times).state.dentries == Moved(s.dentries - {newKey}, oldKey, newKey)
  {
    hide Valid, NoDangling, Reaches, Above, Leaf, ReplaceError, Renames, MetaSpec.Rename;
    RenameChecks(s, oldKey, newKey, times);
    GuardKeepsOutside(s, oldKey, newKey.parent);
    if newKey in s.dentries {
      TargetIsLeaf(s, s.dentries[oldKey], newKey);
    }
  }

  /** Clearing the target name first does not change the view of the move. */
  lemma ReplacedView(
      d: Dentries, oldKey: DentryKey, newKey: DentryKey, oldAbove: Path, newAbove: Path, p: Path)
    requires Injective(d) && oldKey in d && newKey in d && d[newKey] != d[oldKey] && Leaf(d, d[newKey])
    requires Resolve(d, ROOT, oldAbove) == Some(oldKey.parent)
    requires Resolve(d, ROOT, newAbove) == Some(newKey.parent)
    requires !Reaches(d, d[oldKey], newKey.parent)
    ensures MovedView(d - {newKey}, oldAbove + [oldKey.name], newAbove + [newKey.name], p) ==
            MovedView(d, oldAbove + [oldKey.name], newAbove + [newKey.name], p)
  {
    var oldPath, newPath := oldAbove + [oldKey.name], newAbove + [newKey.name];
    if newPath <= p {
      var rest := p[|newPath|..];
      RemovedPath(d, newKey, newAbove, oldPath + rest);
      BelowMoved(d, newKey, newAbove, []);
      BelowMoved(d, oldKey, oldAbove, []);
      NotThroughMoved(d, oldKey, oldAbove, newKey.parent, newAbove);
      PrefixSnoc(oldPath, newAbove, newKey.name);
      assert !(oldPath <= newPath) && oldPath <= oldPath + rest;
    } else if !(oldPath <= p) {
      RemovedPath(d, newKey, newAbove, p);
    }
  }

  /** A successful rename is exactly the move of a subtree: below the new path lies what lay
      below the old one, nothing lies below the old one, a replaced target is gone, and every
      other path leads where it led before. */
  lemma RenameMovesSubtree(
      s: State, oldKey: DentryKey, newKey: DentryKey, oldAbove: Path, newAbove: Path, times: Times, p: Path)
    requires Valid(s) && NoDangling(s)
    requires Lookup(s, oldAbove) == Some(oldKey.parent) && Lookup(s, newAbove) == Some(newKey.parent)
    requires Renames(s, oldKey, newKey, times)
    ensures var oldPath, newPath := oldAbove + [oldKey.name], newAbove + [newKey.name];
            Lookup(Rename(s, oldKey, newKey, times).state, p) ==
            if newPath <= p then Lookup(s, oldPath + p[|newPath|..])
            else if oldPath <= p then None
            else Lookup(s, p)
  {
    RenameEntries(s, oldKey, newKey, times);
    assert Injective(s.dentries);
    hide Valid, NoDangling, Resolve, MetaSpec.Rename, Injective, Leaf, Reaches;
    MovedOntoTarget(s.dentries, oldKey, newKey, oldAbove, newAbove, p);
  }

  lemma MovedOntoTarget(
      d: Dentries, oldKey: DentryKey, newKey: DentryKey, oldAbove: Path, newAbove: Path, p: Path)
    requires Injective(d) && oldKey in d && oldKey in d - {newKey}
    requires newKey in d ==> d[newKey] != d[oldKey] && Leaf(d, d[newKey])
    requires Resolve(d, ROOT, oldAbove) == Some(oldKey.parent)
    requires Resolve(d, ROOT, newAbove) == Some(newKey.parent)
    requires !Reaches(d, d[oldKey], newKey.parent)
    ensures Resolve(Moved(d - {newKey}, oldKey, newKey), ROOT, p) ==
            MovedView(d, oldAbove + [oldKey.name], newAbove + [newKey.name], p)
  {
    hide Resolve, Injective, Leaf, Reaches, MovedView;
    if newKey in d {
      AbovesSurvive(d, oldKey, newKey, oldAbove, newAbove);
      ReplacedView(d, oldKey, newKey, oldAbove, newAbove, p);
      FewerEntriesReachLess(d, newKey, d[oldKey], newKey.parent);
      MovedPath(d - {newKey}, oldKey, newKey, oldAbove, newAbove, p);
    } else {
      assert d - {newKey} == d;
      MovedPath(d, oldKey, newKey, oldAbove, newAbove, p);
    }
  }

  /** Both parents are still where they were once the replaced target is gone. */
  lemma AbovesSurvive(d: Dentries, oldKey: DentryKey, newKey: DentryKey, oldAbove: Path, newAbove: Path)
    requires Injective(d) && oldKey in d && newKey in d && Leaf(d, d[newKey])
    requires Resolve(d, ROOT, oldAbove) == Some(oldKey.parent)
    requires Resolve(d, ROOT, newAbove) == Some(newKey.parent)
    ensures Injective(d - {newKey})
    ensures Resolve(d - {newKey}, ROOT, oldAbove) == Some(oldKey.parent)
    ensures Resolve(d - {newKey}, ROOT, newAbove) == Some(newKey.parent)
  {
    BelowMoved(d, newKey, newAbove, []);
    RemovedPath(d, newKey, newAbove, oldAbove);
    RemovedPath(d, newKey, newAbove, newAbove);
  }

  /** A replaced target vanishes from all tables, and the moved inode keeps its number and type. */
  lemma RenameKeepsInodes(s: State, oldKey: DentryKey, newKey: DentryKey, times: Times)
    requires Valid(s) && NoDangling(s) && Renames(s, oldKey, newKey, times)
    ensures var s' := Rename(s, oldKey, newKey, times).state;
            && s'.inodes.Keys == s.inodes.Keys - (if newKey in s.dentries then {s.dentries[newKey]} else {})
            && newKey in s'.dentries && s'.dentries[newKey] == s.dentries[oldKey]
  {
    hide Valid, NoDangling, Reaches, Leaf, Renames, MetaSpec.Rename;
    RenameEntries(s, oldKey, newKey, times);
    RenameChecks(s, oldKey, newKey, times);
    RenamedInodes(s, oldKey, newKey, times);
  }

  lemma RenamedInodes(s: State, oldKey: DentryKey, newKey: DentryKey, times: Times)
    requires NoDangling(s) && Renames(s, oldKey, newKey, times)
    ensures Rename(s, oldKey, newKey, times).state.inodes.Keys ==
            s.inodes.Keys - (if newKey in s.dentries then {s.dentries[newKey]} else {})
  {
    hide Relinked, WithoutNode, Above, Leaf, ReplaceError, ParentError;
  }
}
