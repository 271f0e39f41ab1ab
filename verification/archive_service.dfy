/** One archive operation: extraction or compression on the remote host, its commit, and its cleanup. */
module ArchiveService {
  import opened Wrappers
  import opened PathText
  import opened RemoteTree
  import opened RemoteFileSystem
  import opened RemoteClearing
  import opened ArchivePlacement
  import opened ArchiveNames
  import opened ArchiveCommit

  datatype NameError = NotAnswered | NoFreeName

  /** A finished operation; the places are names in the target directory. */
  datatype Terminal = Succeeded(places: seq<string>) | Failed | Cancelled

  /** The temporary names are the random ones drawn for this operation. */
  datatype Request =
    | Compress(target: Path, archiveName: string, temporary: string, intermediate: Option<string>)
    | Extract(target: Path, archivePath: Path, temporary: string, intermediate: Option<string>, mode: Mode)
  {
    /** The name the result is called after. */
    function ResultName(): (name: string) {
      if Compress? then archiveName else NamedAfter(archivePath)
    }

    predicate Admissible(root: Tree) {
      && FreshNames(root, target, ResultName(), intermediate, temporary)
      && IsName(ResultName())
      && (Compress? ==> intermediate != Some(archiveName))
      && (Extract? ==> AllNames(target))
    }
  }

  /** What an extraction calls its directory: the archive's base name without its extension. */
  function NamedAfter(archivePath: Path): (name: string) {
    StripExtension(BaseName(archivePath))
  }

  /** Random temporary names: distinct, not yet in the target directory, and not the archive's own name. */
  predicate FreshNames(root: Tree, target: Path, archiveName: string, intermediate: Option<string>, temporary: string)
  {
    && archiveName != temporary && Lookup(root, target + [temporary]).None?
    && (intermediate.Some? ==> intermediate.value != temporary && Lookup(root, target + [intermediate.value]).None?)
  }

  /** One new entry under the archive's name, everything else as before. */
  predicate Compressed(before: Tree, after: Tree, target: Path, archiveName: string) {
    var path := target + [archiveName];
    && Placeable(before, path) && Lookup(before, path).None? && Lookup(after, path).Some?
    && after == Put(before, path, Lookup(after, path))
  }

  class ArchiveOperation {
    const host: RemoteHost
    var temporaryPaths: seq<Path>
    var provisionalDirectories: seq<Path>

    constructor (host: RemoteHost)
      ensures this.host == host && temporaryPaths == [] && provisionalDirectories == []
    {
      this.host := host;
      temporaryPaths, provisionalDirectories := [], [];
    }

    // -------------------------------------------------------------------------------------------
    // Commit

    /** Asks the host for the first free path: the desired one, or its sibling numbered up to `(9999)`. */
    method FindAvailablePath(desired: Path) returns (found: Result<Path, NameError>)
      ensures found.Ok? ==> FirstFreePath(host.root, desired) == Some(found.value)
      ensures found == Err(NoFreeName) ==> FirstFreePath(host.root, desired).None?
      ensures host.granting && found.Err? ==> FirstFreePath(host.root, desired).None?
    {
      hide Lookup, NumberedPath;
      var present := host.PathExists(desired);
      if present.None? { return Err(NotAnswered); }
      if !present.value { return Ok(desired); }
      for attempt := 2 to LAST_ATTEMPT
        invariant FirstFreePath(host.root, desired) == FreePathFrom(host.root, desired, attempt)
      {
        var candidate := NumberedPath(desired, attempt);
        present := host.PathExists(candidate);
        if present.None? { return Err(NotAnswered); }
        if !present.value { return Ok(candidate); }
      }
      found := Err(NoFreeName);
    }

    /** Renames the staging directory to a name beside it. */
    method SubmitWhole(target: Path, staging: string, place: string, ghost dir: map<string, Tree>) returns (ok: bool)
      requires target != [] && Lookup(host.root, target) == Some(Dir(dir)) && staging in dir && place != staging
      modifies host
      ensures !ok ==> host.root == old(host.root)
      ensures ok ==> Placeable(old(host.root), target)
                     && host.root == Put(old(host.root), target, Some(Dir((dir - {staging})[place := dir[staging]])))
                     && Lookup(host.root, target) == Some(Dir((dir - {staging})[place := dir[staging]]))
      ensures host.granting && place !in dir ==> ok
    {
      hide Lookup, Put, Placeable;
      ghost var start := host.root;
      FoundIsPlaceable(start, target);
      PutFound(start, target);
      PutWithin(start, target, dir, staging, None);
      PutWithin(start, target, dir, place, None);
      SiblingsApart(target, Some(staging), place);
      ok := host.Rename(target + [staging], target + [place]);
      ghost var moved := WithEntry(dir, place, Some(dir[staging]));
      PutWithin(start, target, dir, place, Some(dir[staging]));
      PutWithin(start, target, moved, staging, None);
      assert WithEntry(moved, staging, None) == (dir - {staging})[place := dir[staging]];
    }

    /** Moves one staged entry to its place: under its own name, numbered, or merged onto what is there. */
    method SubmitEntry(target: Path, staging: string, name: string, keepBoth: bool, ghost start: Tree,
                       ghost dir: map<string, Tree>, ghost staged: map<string, Tree>)
      returns (place: Option<string>)
      requires Placeable(start, target) && host.root == Put(start, target, Some(Dir(dir)))
      requires staging in dir && dir[staging] == Dir(staged) && name in staged && name != staging
      modifies host
      ensures var a, b := Lookup(host.root, target + [name]), Lookup(host.root, target + [staging] + [name]);
              !keepBoth ==>
                && host.root == Put(start, target, Some(Dir(Stepped(dir, staging, staged, name, a, name, b))))
                && OverlayEntries(a, b) == OverlayEntries(Entry(dir, name), Entry(staged, name))
                && (place.Some? ==> place == Some(name) && b.None?)
      ensures keepBoth ==>
                if place.None? then host.root == old(host.root)
                else
                  && FirstFree(dir.Keys, name) == place
                  && var after := Stepped(dir, staging, staged, place.value, Some(staged[name]), name, None);
                  host.root == Put(start, target, Some(Dir(after)))
      ensures host.Reliable(true) && (keepBoth ==> FirstFree(dir.Keys, name).Some?) ==> place.Some?
    {
      hide Lookup, Put, Placeable, Two, FirstFree, FirstFreePath, Stepped;
      var source, desired := target + [staging] + [name], target + [name];
      ghost var present' := Entry(dir, name);
      CommitStep(start, target, dir, staging, staged, name, present', name, Some(staged[name]));
      TwoFound(host.root, desired, source);
      var active := host.StillActive(true);
      if !active { return None; }
      var present := host.PathExists(desired);
      if present.None? { return None; }
      active := host.StillActive(true);
      if !active { return None; }
      if !present.value {
        FreeName(dir.Keys, name);
        CommitStep(start, target, dir, staging, staged, name, Some(staged[name]), name, None);
        MovedInto(host.root, desired, staged[name], source);
        var ok := host.Rename(source, desired);
        return if ok then Some(name) else None;
      }
      if keepBoth {
        PutThenSame(start, target, Some(Dir(dir)), None);
        TargetIsNotRoot(start, target);
        FirstFreeInside(host.root, target, dir, name);
        var found := FindAvailablePath(desired);
        if found.Err? { return None; }
        active := host.StillActive(true);
        if !active { return None; }
        FreeIsNew(dir.Keys, name);
        var free := BaseName(found.value);
        assert found.value == target + [free];
        CommitStep(start, target, dir, staging, staged, free, Some(staged[name]), name, None);
        var ok := host.Rename(source, found.value);
        return if ok then Some(free) else None;
      }
      var ok := host.MergeEntry(source, desired, staged[name], dir[name]);
      CommitStep(start, target, dir, staging, staged,
                 name, Lookup(host.root, desired), name, Lookup(host.root, source));
      place := if ok then Some(name) else None;
    }

    /**
     * Submits the staged entries in the listed order. Part way through, nothing outside the target
     * directory has changed; keeping both, every entry that was there is unchanged; overwriting, what
     * stands in the target directory and in staging still overlays to the intended result.
     */
    method SubmitEntries(target: Path, staging: string, names: seq<string>, keepBoth: bool, ghost start: Tree,
                         ghost dir: map<string, Tree>, ghost staged: map<string, Tree>)
      returns (places: Option<seq<string>>, ghost left: map<string, Tree>)
      requires Placeable(start, target) && host.root == Put(start, target, Some(Dir(dir)))
      requires staging in dir && dir[staging] == Dir(staged) && staging !in staged && Lists(names, staged)
      modifies host
      ensures host.root == Put(start, target, Some(Dir(left)))
      ensures KeptSoFar(keepBoth, dir, staging, staged, left)
      ensures places.Some? ==> staging in left && left[staging] == Dir(map[])
      ensures places.Some? && !keepBoth ==>
                places.value == names && Dir(left - {staging}) == Overlay(Dir(dir - {staging}), Dir(staged))
      ensures places.Some? && keepBoth ==>
                && KeepBoth(dir, staged, names).Some? && places.value == KeepBoth(dir, staged, names).value.places
                && left - {staging} == KeepBoth(dir, staged, names).value.dir - {staging}
      ensures host.Reliable(true) && (keepBoth ==> KeepBoth(dir, staged, names).Some?) ==> places.Some?
    {
      hide Lookup, Put, Placeable, FirstFree, Stepped, KeepBoth, Overlay, KeptSoFar, Submitting, Lists;
      ghost var kept, s := dir, staged;
      left := dir;
      var done: seq<string> := [];
      SubmittingStarts(keepBoth, dir, staging, staged, names);
      for k := 0 to |names|
        invariant host.root == Put(start, target, Some(Dir(left)))
        invariant Submitting(keepBoth, dir, staging, staged, names, k, kept, s, left, done)
      {
        var name := names[k];
        NextStaged(keepBoth, dir, staging, staged, names, k, kept, s, left, done);
        SubmittingKeeps(keepBoth, dir, staging, staged, names, k, kept, s, left, done);
        var place := SubmitEntry(target, staging, name, keepBoth, start, left, s);
        if keepBoth {
          NextCanBePlaced(dir, staging, staged, names, k, kept, s, left, done);
          if place.None? { return None, left; }
          PlacedNext(dir, staging, staged, names, k, kept, s, left, done, place.value);
          left := Stepped(left, staging, s, place.value, Some(s[name]), name, None);
          kept, s, done := kept[place.value := s[name]], s - {name}, done + [place.value];
        } else {
          ghost var a, b := Lookup(host.root, target + [name]), Lookup(host.root, target + [staging] + [name]);
          OverwrittenSoFar(dir, staging, staged, names, k, kept, s, left, done, a, b);
          if place.None? { return None, Stepped(left, staging, s, name, a, name, b); }
          OverwrittenNext(dir, staging, staged, names, k, kept, s, left, done, a);
          left := Stepped(left, staging, s, name, a, name, None);
          s, done := s - {name}, done + [name];
        }
      }
      SubmittingKeeps(keepBoth, dir, staging, staged, names, |names|, kept, s, left, done);
      SubmittingEnds(keepBoth, dir, staging, staged, names, kept, s, left, done);
      places := Some(done);
    }

    /** The staged names that are already taken in the target directory. */
    method FindConflicts(target: Path, names: seq<string>, ghost dir: map<string, Tree>)
      returns (conflicts: Option<seq<string>>)
      requires target != [] && Lookup(host.root, target) == Some(Dir(dir))
      ensures conflicts.Some? ==> conflicts.value == TakenNames(names, dir)
      ensures host.Reliable(true) ==> conflicts.Some?
    {
      hide Lookup, Put, Placeable;
      var taken: seq<string> := [];
      for k := 0 to |names|
        invariant taken == TakenNames(names[..k], dir)
      {
        assert names[..k + 1][..k] == names[..k];
        PutBelow(host.root, target, dir, names[k], None);
        var active := host.StillActive(true);
        if !active { return None; }
        var present := host.PathExists(target + [names[k]]);
        if present.None? { return None; }
        if present.value {
          taken := taken + [names[k]];
        }
        active := host.StillActive(true);
        if !active { return None; }
      }
      assert names[..|names|] == names;
      conflicts := Some(taken);
    }

    /**
     * Commits the staged output. `answer` is what the conflict prompt would return, cancel when it
     * expires. `begun` tells whether anything was submitted; while it is false nothing has changed.
     */
    method CommitExtractedEntries(target: Path, staging: string, archivePath: Path, mode: Mode, answer: Resolution,
                                  ghost dir: map<string, Tree>)
      returns (places: Option<seq<string>>, ghost begun: bool, ghost names: seq<string>)
      requires target != [] && Lookup(host.root, target) == Some(Dir(dir))
      requires IsName(NamedAfter(archivePath)) && NamedAfter(archivePath) != staging
      requires staging in dir && dir[staging].Dir? ==> staging !in dir[staging].children
      modifies host, this`temporaryPaths
      ensures CommitContract(host.Reliable(true), old(host.root), host.root, target, staging,
                             NamedAfter(archivePath), mode, answer, dir, names, places, begun)
      ensures places.None? ==> temporaryPaths == old(temporaryPaths)
      ensures places.Some? ==> temporaryPaths == Without(old(temporaryPaths), target + [staging])
    {
      hide Lookup, Put, Placeable, Submitted, FirstFree, Without, Overlay, AnyTaken;
      names, begun, places := [], false, None;
      FoundIsPlaceable(host.root, target);
      PutFound(host.root, target);
      PutBelow(host.root, target, dir, staging, None);
      var active := host.StillActive(true);
      if !active { return; }
      var listed := host.Readdir(target + [staging]);
      if listed.None? { return; }
      names := listed.value;
      active := host.StillActive(true);
      if !active { return; }
      var archiveName := StripExtension(BaseName(archivePath));
      if mode.Smart? && |listed.value| != 1 {
        places, begun := SubmitUnique(target, staging, archiveName, mode, answer, dir, names);
      } else if mode.ArchiveNameDirectory? {
        places, begun := SubmitNamed(target, staging, archiveName, mode, answer, dir, names);
      } else {
        places, begun := SubmitListed(target, staging, archiveName, mode, answer, listed.value, dir);
      }
    }

    /**
     * The staging directory is renamed to the first free path for the archive's name, whatever that name
     * is: it changes nothing but the target directory when the name is an ordinary one.
     */
    method SubmitUnique(target: Path, staging: string, archiveName: string, mode: Mode, answer: Resolution,
                        ghost dir: map<string, Tree>, ghost names: seq<string>)
      returns (places: Option<seq<string>>, ghost begun: bool)
      requires target != [] && Lookup(host.root, target) == Some(Dir(dir))
      requires staging in dir && dir[staging].Dir? && Lists(names, dir[staging].children)
      requires MovesWhole(mode, answer, archiveName, dir, names)
      modifies host, this`temporaryPaths
      ensures begun <==> places.Some?
      ensures places.None? ==> host.root == old(host.root)
      ensures places.Some? ==>
                var found := FirstFreePath(old(host.root), Joined(target, archiveName));
                && found.Some? && places.value == [BaseName(found.value)]
                && RenamedTo(old(host.root), host.root, target + [staging], found.value)
      ensures IsName(archiveName) ==>
                CommitContract(host.Reliable(true), old(host.root), host.root, target, staging, archiveName,
                               mode, answer, dir, names, places, begun)
      ensures places.None? ==> temporaryPaths == old(temporaryPaths)
      ensures places.Some? ==> temporaryPaths == Without(old(temporaryPaths), target + [staging])
    {
      hide Lookup, Put, Placeable, FirstFree, FirstFreePath, Without, Lists, Two;
      places, begun := None, false;
      ghost var start := host.root;
      FoundIsPlaceable(start, target);
      PutFound(start, target);
      FirstFreeInside(start, target, dir, archiveName);
      var found := FindAvailablePath(Joined(target, archiveName));
      if found.Err? { return; }
      var active := host.StillActive(true);
      if !active { return; }
      FirstFreeIsFree(start, Joined(target, archiveName));
      if IsName(archiveName) {
        FreePlaceIsUsable(start, target, dir, staging, archiveName);
      }
      var ok := host.Rename(target + [staging], found.value);
      if !ok { return; }
      if IsName(archiveName) {
        RenamedInside(start, host.root, target, dir, staging, archiveName);
      }
      temporaryPaths := Without(temporaryPaths, target + [staging]);
      places, begun := Some([BaseName(found.value)]), true;
    }

    /** The staging directory becomes the directory named after the archive, or is merged onto it. */
    method SubmitNamed(target: Path, staging: string, archiveName: string, mode: Mode, answer: Resolution,
                       ghost dir: map<string, Tree>, ghost names: seq<string>)
      returns (places: Option<seq<string>>, ghost begun: bool)
      requires target != [] && Lookup(host.root, target) == Some(Dir(dir)) && archiveName != staging
      requires staging in dir && dir[staging].Dir? && Lists(names, dir[staging].children)
      requires mode.ArchiveNameDirectory? && IsName(archiveName)
      modifies host, this`temporaryPaths
      ensures CommitContract(host.Reliable(true), old(host.root), host.root, target, staging, archiveName,
                             mode, answer, dir, names, places, begun)
      ensures places.None? ==> temporaryPaths == old(temporaryPaths)
      ensures places.Some? ==> temporaryPaths == Without(old(temporaryPaths), target + [staging])
    {
      hide Lookup, Put, Placeable, FirstFree, Without, Lists, Two, Overlay;
      places, begun := None, false;
      ghost var start := host.root;
      FoundIsPlaceable(start, target);
      PutFound(start, target);
      SiblingStep(start, target, dir, archiveName, Entry(dir, archiveName), staging, Some(dir[staging]));
      var present := host.PathExists(target + [archiveName]);
      if present.None? { return; }
      var active := host.StillActive(true);
      if !active { return; }
      if !present.value {
        FreeName(dir.Keys, archiveName);
        var ok := SubmitWhole(target, staging, archiveName, dir);
        if !ok { return; }
        temporaryPaths := Without(temporaryPaths, target + [staging]);
        return Some([archiveName]), true;
      }
      if answer.Cancel? { return; }
      if answer.KeepBothEntries? {
        places, begun := SubmitUnique(target, staging, archiveName, mode, answer, dir, names);
        return;
      }
      active := host.StillActive(true);
      if !active { return; }
      begun := true;
      var ok := host.MergeEntry(target + [staging], target + [archiveName], dir[staging], dir[archiveName]);
      ghost var a, b := Lookup(host.root, target + [archiveName]), Lookup(host.root, target + [staging]);
      SiblingStep(start, target, dir, archiveName, a, staging, b);
      ghost var after := WithEntry(WithEntry(dir, archiveName, a), staging, b);
      PutThenSame(start, target, Some(Dir(after)), None);
      if !ok { return; }
      assert after == (dir - {staging})[archiveName := Overlay(dir[archiveName], dir[staging])];
      temporaryPaths := Without(temporaryPaths, target + [staging]);
      places := Some([archiveName]);
    }

    /** The staged entries are submitted one by one, asking first when any of their names is taken. */
    method SubmitListed(target: Path, staging: string, archiveName: string, mode: Mode, answer: Resolution,
                        names: seq<string>, ghost dir: map<string, Tree>)
      returns (places: Option<seq<string>>, ghost begun: bool)
      requires target != [] && Lookup(host.root, target) == Some(Dir(dir))
      requires staging in dir && dir[staging].Dir? && Lists(names, dir[staging].children)
      requires staging !in dir[staging].children
      requires !mode.ArchiveNameDirectory? && !(mode.Smart? && |names| != 1)
      modifies host, this`temporaryPaths
      ensures CommitContract(host.Reliable(true), old(host.root), host.root, target, staging, archiveName,
                             mode, answer, dir, names, places, begun)
      ensures places.None? ==> temporaryPaths == old(temporaryPaths)
      ensures places.Some? ==> temporaryPaths == Without(old(temporaryPaths), target + [staging])
    {
      hide Lookup, Put, Placeable, FirstFree, Without, Lists, Overlay, KeepBoth, TakenNames, KeptSoFar;
      places, begun := None, false;
      ghost var start := host.root;
      FoundIsPlaceable(start, target);
      PutFound(start, target);
      var conflicts := FindConflicts(target, names, dir);
      if conflicts.None? { return; }
      var resolution := if conflicts.value != [] then answer else Overwrite;
      if resolution.Cancel? { return; }
      begun := true;
      ghost var left;
      places, left :=
        SubmitEntries(target, staging, names, resolution.KeepBothEntries?, start, dir, dir[staging].children);
      PutThenSame(start, target, Some(Dir(left)), None);
      if places.None? { return; }
      PutWithin(start, target, left, staging, None);
      var ok := host.RemoveTree(target + [staging], false, Dir(map[]));
      PutWithin(start, target, left, staging, Lookup(host.root, target + [staging]));
      PutThenSame(start, target, Some(Dir(WithEntry(left, staging, Lookup(host.root, target + [staging])))), None);
      if !ok {
        KeptAfterRemoval(resolution.KeepBothEntries?, dir, staging, dir[staging].children, left,
                         Lookup(host.root, target + [staging]));
        return None, true;
      }
      temporaryPaths := Without(temporaryPaths, target + [staging]);
    }

    // -------------------------------------------------------------------------------------------
    // Cleanup

    /**
     * Removes every known temporary entry, newest first, then the provisional directories, longest
     * path first. When it reports success after an operation that can be undone, it has undone it.
     */
    method PerformTemporaryPathCleanup() returns (succeeded: bool)
      requires forall p :: p in temporaryPaths ==> p != []
      modifies this, host
      ensures succeeded ==> temporaryPaths == [] && provisionalDirectories == []
      ensures old(temporaryPaths) == [] && old(provisionalDirectories) == [] ==>
                succeeded && host.root == old(host.root)
      ensures forall start ::
                succeeded && Undoable(old(host.root), old(temporaryPaths), old(provisionalDirectories), start)
                ==> host.root == start
      ensures forall q :: OutOfTheWay(q, old(temporaryPaths), old(provisionalDirectories))
                          ==> Lookup(host.root, q) == Lookup(old(host.root), q)
      ensures forall start ::
                host.granting && Undoable(old(host.root), old(temporaryPaths), old(provisionalDirectories), start)
                ==> succeeded
    {
      hide Undoable, Emptied, ClearedAll, DeepestFirst;
      ghost var dirs := provisionalDirectories;
      var cleared, timedOut := RemoveTemporaryPaths();
      succeeded := false;
      if !timedOut {
        succeeded, timedOut := RemoveProvisionalDirectories();
        succeeded := succeeded && cleared && !timedOut;
      }
      forall start | Undoable(old(host.root), old(temporaryPaths), dirs, start)
        ensures succeeded ==> host.root == start
        ensures host.granting ==> succeeded
      {
        UndoableMeans(old(host.root), old(temporaryPaths), dirs, start);
      }
    }

    method RemoveTemporaryPaths() returns (succeeded: bool, timedOut: bool)
      requires forall p :: p in temporaryPaths ==> p != []
      modifies this`temporaryPaths, host
      ensures succeeded ==> temporaryPaths == [] && !timedOut
      ensures succeeded ==> host.root == ClearedAll(old(host.root), old(temporaryPaths))
      ensures forall q :: OutOfTheWay(q, old(temporaryPaths), [])
                          ==> Lookup(host.root, q) == Lookup(old(host.root), q)
      ensures old(temporaryPaths) == [] ==> succeeded && !timedOut && host.root == old(host.root)
      ensures host.granting ==> succeeded
    {
      hide Lookup, Put, Placeable, Pruned;
      succeeded, timedOut := true, false;
      var paths := temporaryPaths;
      assert paths[..|paths|] == paths;
      for i := |paths| downto 0
        invariant forall p :: p in paths ==> p != []
        invariant paths == [] ==> succeeded && host.root == old(host.root)
        invariant host.granting ==> succeeded && !timedOut
        invariant forall q :: OutOfTheWay(q, paths, []) ==> Lookup(host.root, q) == Lookup(old(host.root), q)
        invariant succeeded ==> forall p :: p in temporaryPaths ==> p in paths[..i]
        invariant succeeded ==> ClearedAll(host.root, paths[..i]) == ClearedAll(old(host.root), paths)
      {
        ghost var before := host.root;
        var path := paths[i];
        assert path in paths;
        assert paths[..i + 1][..i] == paths[..i];
        var ok := host.RemoveTree(path, false, EntryOr(before, path));
        RemovalUnseen(before, path, host.root);
        if ok {
          RemovedIsCleared(before, path, host.root);
          temporaryPaths := Without(temporaryPaths, path);
        } else {
          succeeded := false;
          timedOut := *;
          if timedOut { return; }
        }
      }
      assert temporaryPaths != [] ==> temporaryPaths[0] in temporaryPaths;
    }

    method RemoveProvisionalDirectories() returns (succeeded: bool, timedOut: bool)
      modifies this`provisionalDirectories, host
      ensures succeeded ==> provisionalDirectories == [] && !timedOut
      ensures old(provisionalDirectories) == [] ==> succeeded && !timedOut && host.root == old(host.root)
      ensures var dirs := old(provisionalDirectories);
              Nested(dirs) && Emptied(old(host.root), dirs) ==>
                && (succeeded ==> host.root == ClearedAll(old(host.root), dirs))
                && (host.granting ==> succeeded)
      ensures forall q :: OutOfTheWay(q, [], old(provisionalDirectories))
                          ==> Lookup(host.root, q) == Lookup(old(host.root), q)
    {
      hide Lookup, Put, Placeable, Nested, DeepestFirst;
      succeeded, timedOut := true, false;
      ghost var dirs, start := provisionalDirectories, host.root;
      var sorted := DeepestFirst(provisionalDirectories);
      SortedLike(dirs);
      assert dirs[..|dirs|] == dirs;
      ghost var undoing := Nested(dirs) && Emptied(start, dirs);
      for i := 0 to |sorted|
        invariant dirs == [] ==> succeeded && !timedOut && host.root == start
        invariant !timedOut && (host.granting && undoing ==> succeeded)
        invariant succeeded ==> forall d :: d in provisionalDirectories ==> d in sorted[i..]
        invariant forall q :: OutOfTheWay(q, [], dirs) ==> Lookup(host.root, q) == Lookup(start, q)
        invariant succeeded && undoing ==>
                    && Emptied(host.root, dirs[..|dirs| - i])
                    && ClearedAll(host.root, dirs[..|dirs| - i]) == ClearedAll(start, dirs)
      {
        ghost var before := host.root;
        var dir := sorted[i];
        assert sorted[i..] == [dir] + sorted[i + 1..];
        assert dirs[..|dirs| - i][..|dirs| - i - 1] == dirs[..|dirs| - i - 1];
        assert succeeded && undoing ==> Lookup(before, dir) == Some(Dir(map[]));
        NestedIsBelow(dirs, i);
        var reply := host.Rmdir(dir);
        if reply.Removed? {
          EmptyUnseenAround(before, dir);
          assert dir in dirs;
          provisionalDirectories := Without(provisionalDirectories, dir);
        } else if reply.NoSuchFile? {
          provisionalDirectories := Without(provisionalDirectories, dir);
        } else {
          var listed := host.Readdir(dir);
          assert listed.Some? && |listed.value| > 0 ==> listed.value[0] in listed.value;
          if listed.Some? && |listed.value| > 0 {
            provisionalDirectories := Without(provisionalDirectories, dir);
          } else {
            succeeded := false;
            timedOut := *;
            if timedOut { return; }
          }
        }
      }
      assert provisionalDirectories != [] ==> provisionalDirectories[0] in provisionalDirectories;
    }

    // -------------------------------------------------------------------------------------------
    // Extraction

    /** The missing directories along a path, shallowest first; nothing when a non-directory is in the way. */
    method FindMissingDirectories(target: Path) returns (missing: Option<seq<Path>>)
      requires host.root.Dir?
      ensures missing.Some? ==> MissingTail(target, missing.value)
                                && forall i :: 0 <= i < |missing.value| ==> Lookup(host.root, missing.value[i]).None?
      ensures missing == Some([]) ==> HoldsDirectory(host.root, target)
      ensures missing.Some? ==> HoldsDirectory(host.root, target[..|target| - |missing.value|])
      ensures host.Reliable(true) && NothingInTheWay(host.root, target) ==> missing.Some?
    {
      hide Lookup;
      var paths: seq<Path> := [];
      var k := |target|;
      while k > 0
        invariant 0 <= k <= |target| == k + |paths|
        invariant forall i :: 0 <= i < |paths| ==> paths[i] == target[..k + 1 + i] && Lookup(host.root, paths[i]).None?
      {
        var active := host.StillActive(true);
        if !active { return None; }
        var stat := host.Lstat(target[..k]);
        if stat.Unanswered? { return None; }
        if stat.Found? {
          active := host.StillActive(true);
          if !active || !stat.kind.ADirectory? { return None; }
          break;
        }
        paths := [target[..k]] + paths;
        k := k - 1;
      }
      assert k == |target| ==> target[..k] == target;
      RootIsDirectory(host.root);
      assert k == 0 ==> target[..k] == [];
      missing := Some(paths);
    }

    /** Makes the missing directories along the target path, each registered for removal as soon as it exists. */
    method EnsureRemoteDirectory(target: Path) returns (ok: bool)
      requires target != [] && AllNames(target) && host.root.Dir? && provisionalDirectories == []
      modifies host, this`provisionalDirectories
      ensures Emptied(host.root, provisionalDirectories) && Nested(provisionalDirectories)
      ensures ClearedAll(host.root, provisionalDirectories) == old(host.root)
      ensures forall i :: 0 <= i < |provisionalDirectories| ==>
                provisionalDirectories[i] <= target && Lookup(old(host.root), provisionalDirectories[i]).None?
      ensures ok ==> && host.root == WithDirectories(old(host.root), target)
                     && Lookup(host.root, target).Some? && Lookup(host.root, target).value.Dir?
      ensures host.Reliable(true) && NothingInTheWay(old(host.root), target) ==> ok
    {
      hide Put, Lookup, Placeable, WithDirectories, Emptied, ClearedAll, Nested, MissingTail, NothingInTheWay,
            HoldsDirectory, Making;
      NothingToClear(host.root);
      var found := FindMissingDirectories(target);
      if found.None? { return false; }
      var missing := found.value;
      ghost var start := host.root;
      MakingStarts(start, target, missing);
      for i := 0 to |missing|
        invariant provisionalDirectories == missing[..i]
        invariant Making(start, target, missing, i, host.root)
      {
        MakingSoFar(start, target, missing, i, host.root);
        var active := host.StillActive(true);
        if !active { return false; }
        MakingNext(start, target, missing, i, host.root);
        ok := host.Mkdir(missing[i]);
        if !ok { return; }
        provisionalDirectories := provisionalDirectories + [missing[i]];
        assert missing[..i + 1] == missing[..i] + [missing[i]];
      }
      MakingSoFar(start, target, missing, |missing|, host.root);
      MakingEnds(start, target, missing, host.root);
      ok := true;
    }

    /** Expands a compressed tar into a registered file beside the staging directory to come. */
    method ExpandArchive(target: Path, expanded: string, ghost dir: map<string, Tree>, ghost made: Tree,
                         ghost start: Tree)
      returns (ok: bool, ghost staged: map<string, Tree>)
      requires target != [] && Lookup(host.root, target) == Some(Dir(dir)) && expanded !in dir
      requires temporaryPaths == [] && Reverts(host.root, [], provisionalDirectories, made, start)
      modifies host, this`temporaryPaths
      ensures temporaryPaths == [target + [expanded]]
      ensures Reverts(host.root, temporaryPaths, provisionalDirectories, made, start)
      ensures Lookup(host.root, target) == Some(Dir(staged)) && forall n :: n in staged ==> n in dir || n == expanded
    {
      hide Lookup, Put, Placeable, Reverts;
      var expandedPath := target + [expanded];
      ChildReplaced(host.root, target, dir, expanded, None);
      TempRegistered(host.root, [], provisionalDirectories, made, start, expandedPath);
      temporaryPaths := [expandedPath];
      assert temporaryPaths == [] + [expandedPath];
      ghost var before := host.root;
      host.RewriteAt(expandedPath);
      ghost var left := Lookup(host.root, expandedPath);
      TempRewritten(before, temporaryPaths, provisionalDirectories, made, start, expandedPath, left);
      ChildReplaced(before, target, dir, expanded, left);
      staged := WithEntry(dir, expanded, left);
      ok := *;
    }

    /** Makes the staging directory and extracts into it; every trace is a registered path. */
    method StageMembers(target: Path, expanded: Option<string>, staging: string, ghost dir: map<string, Tree>,
                        ghost made: Tree, ghost start: Tree)
      returns (ok: bool, ghost staged: map<string, Tree>)
      requires target != [] && Lookup(host.root, target) == Some(Dir(dir)) && staging !in dir
      requires expanded.Some? ==> expanded.value !in dir && expanded.value != staging
      requires temporaryPaths == [] && Reverts(host.root, [], provisionalDirectories, made, start)
      modifies host, this`temporaryPaths
      ensures Reverts(host.root, temporaryPaths, provisionalDirectories, made, start)
      ensures forall p :: p in temporaryPaths ==>
                        p == target + [staging] || (expanded.Some? && p == target + [expanded.value])
      ensures ok ==> temporaryPaths == [target + [staging]] && Lookup(host.root, target) == Some(Dir(staged))
      ensures ok && staging in staged && staged[staging].Dir? ==> staging !in staged[staging].children
    {
      hide Lookup, Put, Placeable, Reverts, Without;
      staged := dir;
      ok := false;
      var stagingPath := target + [staging];
      if expanded.Some? {
        ok, staged := ExpandArchive(target, expanded.value, dir, made, start);
        if !ok { return; }
        ok := false;
      }
      SiblingsApart(target, expanded, staging);
      var membersSafe: bool := *;
      if !membersSafe { return; }
      ChildReplaced(host.root, target, staged, staging, Some(Dir(map[])));
      TempRegistered(host.root, temporaryPaths, provisionalDirectories, made, start, stagingPath);
      var created := host.Mkdir(stagingPath);
      if !created { return; }
      temporaryPaths := temporaryPaths + [stagingPath];
      ghost var before := host.root;
      staged := staged[staging := Dir(map[])];
      ChildReplaced(before, target, staged, staging, None);
      var extracted := host.ExtractInto(stagingPath, staging);
      ghost var output := Lookup(host.root, stagingPath);
      TempRewritten(before, temporaryPaths, provisionalDirectories, made, start, stagingPath, output);
      ChildReplaced(before, target, staged, staging, output);
      staged := WithEntry(staged, staging, output);
      if !extracted { return; }
      if expanded.Some? {
        before := host.root;
        ChildReplaced(before, target, staged, expanded.value, None);
        var removed := host.Unlink(target + [expanded.value]);
        if !removed { return; }
        TempRewritten(before, temporaryPaths, provisionalDirectories, made, start, target + [expanded.value], None);
        TempGone(host.root, temporaryPaths, provisionalDirectories, made, start, target + [expanded.value]);
        temporaryPaths := Without(temporaryPaths, target + [expanded.value]);
        WithoutFirst(target, expanded.value, staging);
        staged := WithEntry(staged, expanded.value, None);
      }
      assert [] + [stagingPath] == [stagingPath];
      ok := host.StillActive(true);
    }

    /**
     * Validates, extracts and commits one archive. Until the commit begins the operation can be undone;
     * a completed one leaves the directories along the target path and the committed entries, nothing
     * else. However it ends, nothing apart from the target directory has changed, nor any entry of it
     * other than those a commit that overwrites may replace.
     */
    method RunExtraction(archivePath: Path, target: Path, expanded: Option<string>, staging: string, mode: Mode,
                         answer: Resolution)
      returns (places: Option<seq<string>>, ghost begun: bool, ghost dir: map<string, Tree>, ghost names: seq<string>)
      requires AllNames(target) && host.root.Dir? && temporaryPaths == [] && provisionalDirectories == []
      requires IsName(NamedAfter(archivePath))
      requires FreshNames(host.root, target, NamedAfter(archivePath), expanded, staging)
      modifies this, host
      ensures forall p :: p in temporaryPaths ==> p != []
      ensures OwnPaths(old(host.root), target, expanded, staging, temporaryPaths, provisionalDirectories)
      ensures Spared(old(host.root), host.root, target,
                     if begun then Replaceable(mode, answer, NamedAfter(archivePath), names) else {})
      ensures !begun ==>
                places.None? && Undoable(host.root, temporaryPaths, provisionalDirectories, old(host.root))
      ensures places.Some? ==> temporaryPaths == [] && provisionalDirectories == []
      ensures places.Some? ==>
                Extracted(old(host.root), host.root, target, staging, NamedAfter(archivePath), mode, answer,
                          dir, names, places.value)
      ensures answer.Cancel? && staging in dir && dir[staging].Dir? && Lists(names, dir[staging].children)
              ==> (Asks(mode, NamedAfter(archivePath), dir, names) ==> !begun)
    {
      hide Put, Lookup, Placeable, WithDirectories, Emptied, ClearedAll, Reverts, Undoable, Submitted, Without,
            AnyTaken, CommitContract, Extracted, Asks, OwnPaths, Spared, NamedAfter, NothingInTheWay;
      places, begun, dir, names := None, false, map[], [];
      ghost var start := host.root;
      NothingToUndo(start);
      NothingRegistered(start, target, expanded, staging);
      if target == [] { return; }
      var stat := host.Lstat(archivePath);
      if stat != Found(AFile) { return; }
      var ready := EnsureRemoteDirectory(target);
      ghost var made, dirs := host.root, provisionalDirectories;
      OnlyDirectories(made, dirs, start);
      RevertsIsUndoable(made, [], dirs, made, start);
      MissingAreOwn(start, target, expanded, staging, dirs);
      UndoableIsSpared(start, made, target, expanded, staging, [], dirs);
      if !ready { return; }
      StillFresh(start, target, expanded, staging);
      var staged: bool;
      staged, dir := StageMembers(target, expanded, staging, Lookup(made, target).value.children, made, start);
      RevertsIsUndoable(host.root, temporaryPaths, dirs, made, start);
      TemporariesAreOwn(start, target, expanded, staging, temporaryPaths, dirs);
      UndoableIsSpared(start, host.root, target, expanded, staging, temporaryPaths, dirs);
      if !staged { return; }
      ghost var before := host.root;
      AtCommit(before, target, staging, dirs, made, start, dir);
      places, begun, names := CommitExtractedEntries(target, staging, archivePath, mode, answer, dir);
      CommitMeans(host.Reliable(true), before, host.root, target, staging, NamedAfter(archivePath), mode, answer,
                  dir, names, places, begun, start, made);
      if begun {
        CommitSpares(host.Reliable(true), before, host.root, target, expanded, staging, NamedAfter(archivePath), mode,
                     answer, dir, names, places, start, made, dirs);
      }
      if places.None? { return; }
      WithoutOnly(target + [staging]);
      provisionalDirectories := [];
      NothingIsOwn(start, target, expanded, staging);
    }

    // -------------------------------------------------------------------------------------------
    // Compression

    /** Compresses into a temporary file beside the target and renames it into place. */
    method RunCompression(target: Path, archiveName: string, partialName: string, intermediate: Option<string>)
      returns (ok: bool)
      requires temporaryPaths == [] && provisionalDirectories == []
      requires FreshNames(host.root, target, archiveName, intermediate, partialName)
      requires intermediate != Some(archiveName)
      modifies host, this`temporaryPaths
      ensures forall p :: p in temporaryPaths ==> p != []
      ensures !ok ==> Undoable(host.root, temporaryPaths, [], old(host.root))
      ensures ok ==> temporaryPaths == [] && Compressed(old(host.root), host.root, target, archiveName)
    {
      hide Put, Lookup, Placeable, Reverts, Undoable, Without, Two;
      ghost var start := host.root;
      NothingToUndo(start);
      if target == [] { return false; }
      var targetPath, partialPath := target + [archiveName], target + [partialName];
      SiblingsApart(target, Some(archiveName), partialName);
      SiblingsApart(target, intermediate, partialName);
      var present := host.PathExists(targetPath);
      if present != Some(false) { return false; }
      var inputsFine: bool := *;
      if !inputsFine { return false; }
      TempRegistered(host.root, [], [], start, start, partialPath);
      temporaryPaths := [partialPath];
      assert [] + [partialPath] == [partialPath];
      ok := RunCompressionTool(target, partialName, intermediate, start);
      RevertsIsUndoable(host.root, temporaryPaths, [], start, start);
      if !ok { return; }
      var active := host.StillActive(true);
      if !active { return false; }
      present := host.PathExists(targetPath);
      if present != Some(false) { return false; }
      active := host.StillActive(true);
      if !active { return false; }
      ghost var before := host.root;
      ok := host.Rename(partialPath, targetPath);
      if !ok { return; }
      RenamedIntoPlace(before, targetPath, partialPath, start);
      WithoutOnly(partialPath);
      temporaryPaths := Without(temporaryPaths, partialPath);
    }

    /** The compression command; when it succeeds it has removed its intermediate tar. */
    method RunCompressionTool(target: Path, partialName: string, intermediate: Option<string>, ghost start: Tree)
      returns (ok: bool)
      requires temporaryPaths == [target + [partialName]]
      requires Reverts(host.root, temporaryPaths, [], start, start)
      requires intermediate.Some? ==>
                 intermediate.value != partialName && Lookup(host.root, target + [intermediate.value]).None?
      modifies host, this`temporaryPaths
      ensures Reverts(host.root, temporaryPaths, [], start, start)
      ensures forall p :: p in temporaryPaths ==> p != []
      ensures ok ==> temporaryPaths == [target + [partialName]]
    {
      hide Put, Lookup, Placeable, Reverts, Without;
      var partialPath := target + [partialName];
      if intermediate.Some? {
        var between := target + [intermediate.value];
        SiblingsApart(target, intermediate, partialName);
        TempRegistered(host.root, temporaryPaths, [], start, start, between);
        temporaryPaths := temporaryPaths + [between];
        ghost var before := host.root;
        host.RewriteAt(between);
        if Placeable(before, between) {
          TempRewritten(before, temporaryPaths, [], start, start, between, Lookup(host.root, between));
        }
      }
      ghost var before := host.root;
      host.RewriteAt(partialPath);
      if Placeable(before, partialPath) {
        TempRewritten(before, temporaryPaths, [], start, start, partialPath, Lookup(host.root, partialPath));
      }
      ok := *;
      if ok && intermediate.Some? {
        var between := target + [intermediate.value];
        before := host.root;
        host.Discard(between);
        if Placeable(before, between) {
          TempRewritten(before, temporaryPaths, [], start, start, between, None);
        }
        TempGone(host.root, temporaryPaths, [], start, start, between);
        temporaryPaths := Without(temporaryPaths, between);
        WithoutSecond(target, partialName, intermediate.value);
      }
    }

    // -------------------------------------------------------------------------------------------
    // The whole operation

    /**
     * Runs one operation and cleans up after it. Whenever nothing had been committed and the cleanup
     * reports success, the remote tree is exactly the tree the operation found. An extraction, however
     * it and its cleanup end, leaves everything apart from its target directory alone, and when the
     * commit did not begin, or the answer is not to overwrite, every entry of the target directory too.
     */
    method RunOperation(request: Request, answer: Resolution)
      returns (state: Terminal, cleaned: bool,
               ghost begun: bool, ghost dir: map<string, Tree>, ghost names: seq<string>)
      requires host.root.Dir? && temporaryPaths == [] && provisionalDirectories == [] && request.Admissible(host.root)
      modifies this, host
      ensures cleaned && !begun ==> host.root == old(host.root)
      ensures state.Succeeded? ==> cleaned && begun
      ensures !cleaned ==> state.Failed?
      ensures cleaned ==> temporaryPaths == [] && provisionalDirectories == []
      ensures request.Compress? && !state.Succeeded? ==> !begun
      ensures request.Compress? && state.Succeeded? ==>
                && state.places == [request.archiveName]
                && Compressed(old(host.root), host.root, request.target, request.archiveName)
      ensures request.Extract? && state.Succeeded? ==>
                Extracted(old(host.root), host.root, request.target, request.temporary, request.ResultName(),
                          request.mode, answer, dir, names, state.places)
      ensures request.Extract? ==>
                Spared(old(host.root), host.root, request.target,
                       if begun then Replaceable(request.mode, answer, request.ResultName(), names) else {})
      ensures request.Extract? && answer.Cancel? && request.temporary in dir && dir[request.temporary].Dir?
              && Lists(names, dir[request.temporary].children)
              ==> (Asks(request.mode, request.ResultName(), dir, names) ==> !begun)
      ensures host.granting && !begun ==> cleaned
    {
      hide Undoable, Extracted, Compressed, Put, Lookup, Placeable, Lists, Asks, OwnPaths, Spared, OutOfTheWay;
      ghost var start := host.root;
      begun, dir, names := false, map[], [];
      var places: Option<seq<string>> := None;
      var supported: bool := *;
      NothingToUndo(start);
      NothingRegistered(start, request.target, request.intermediate, request.temporary);
      if supported {
        match request {
          case Compress(target, archiveName, temporary, intermediate) =>
            var ok := RunCompression(target, archiveName, temporary, intermediate);
            begun, places := ok, if ok then Some([archiveName]) else None;
          case Extract(target, archivePath, temporary, intermediate, mode) =>
            places, begun, dir, names :=
              RunExtraction(archivePath, target, intermediate, temporary, mode, answer);
        }
      }
      var cancelled: bool := *;
      state := match places case Some(p) => Succeeded(p) case None => if cancelled then Cancelled else Failed;
      assert !begun ==> Undoable(host.root, temporaryPaths, provisionalDirectories, start);
      ghost var mid, temps, dirs := host.root, temporaryPaths, provisionalDirectories;
      cleaned := PerformTemporaryPathCleanup();
      if request.Extract? {
        CleanupSpares(start, mid, host.root, request.target, request.intermediate, request.temporary, temps, dirs,
                      if begun then Replaceable(request.mode, answer, request.ResultName(), names) else {});
      }
      if !cleaned {
        state := Failed;
      }
    }
  }
}
