/** What a commit promises, how the submission of staged entries proceeds, and the bookkeeping behind cleanup. */
module ArchiveCommit {
  import opened Wrappers
  import opened PathText
  import opened RemoteTree
  import opened RemoteFileSystem
  import opened RemoteClearing
  import opened ArchivePlacement
  import opened ArchiveNames

  /**
   * What one way of submitting promises: nothing outside the target directory changes, nothing at all unless it
   * began. A submission that began and failed has kept what `KeptSoFar` and `MergedSoFar` say.
   */
  ghost predicate CommitContract(reliable: bool, before: Tree, root: Tree, target: Path, staging: string,
                                 archiveName: string, mode: Mode, answer: Resolution, dir: map<string, Tree>,
                                 names: seq<string>, places: Option<seq<string>>, begun: bool)
  {
    && Placeable(before, target) && Lookup(root, target).Some? && Lookup(root, target).value.Dir?
    && root == Put(before, target, Lookup(root, target))
    && (!begun ==> root == before && places.None?)
    && (answer.Cancel? && Asks(mode, archiveName, dir, names) ==> !begun)
    && (places.Some? ==>
          Submitted(mode, answer, archiveName, dir, staging, names, Lookup(root, target).value.children, places.value))
    && (reliable && CanSubmit(mode, answer, archiveName, dir, staging, names) ==> places.Some?)
    && (begun && places.None? ==>
          SubmittedInPart(mode, answer, archiveName, dir, staging, names, Lookup(root, target).value.children))
  }

  /** The names whose entries a commit may replace or merge onto: none unless the answer is to overwrite. */
  function Replaceable(mode: Mode, answer: Resolution, archiveName: string, names: seq<string>)
    : (replaced: set<string>)
  {
    if !answer.Overwrite? || (mode.Smart? && |names| != 1) then {}
    else if mode.ArchiveNameDirectory? then {archiveName}
    else set n | n in names
  }

  /** A commit changes no other entry, whether it completes or fails part way. */
  lemma CommitKeepsOthers(reliable: bool, before: Tree, root: Tree, target: Path, staging: string, archiveName: string,
                          mode: Mode, answer: Resolution, dir: map<string, Tree>, names: seq<string>,
                          places: Option<seq<string>>, n: string)
    requires CommitContract(reliable, before, root, target, staging, archiveName, mode, answer, dir, names, places,
                            true)
    requires n in dir && n != staging && n !in Replaceable(mode, answer, archiveName, names)
    ensures Entry(Lookup(root, target).value.children, n) == Some(dir[n])
  {
    hide Lookup, Put, Placeable, KeepBoth, Overlay, FirstFree;
    var after := Lookup(root, target).value.children;
    if places.Some? {
      FreeIsNew(dir.Keys, archiveName);
      SubmittedKeepsOthers(mode, answer, archiveName, dir, staging, names, after, places.value, n);
    } else if mode.ArchiveNameDirectory? {
      assert Entry(after, n) == Entry(dir, n);
    } else {
      assert n in names ==> AnyTaken(names, dir);
      assert n !in dir[staging].children || (answer.KeepBothEntries? && AnyTaken(names, dir));
    }
  }

  lemma SubmittedKeepsOthers(mode: Mode, answer: Resolution, archiveName: string, dir: map<string, Tree>,
                             staging: string, names: seq<string>, after: map<string, Tree>, places: seq<string>,
                             n: string)
    requires Submitted(mode, answer, archiveName, dir, staging, names, after, places)
    requires !(answer.Cancel? && Asks(mode, archiveName, dir, names))
    requires n in dir && n != staging && n !in Replaceable(mode, answer, archiveName, names)
    ensures Entry(after, n) == Some(dir[n])
  {
    hide FirstFree, KeepBoth, Overlay;
    FreeIsNew(dir.Keys, archiveName);
    if !MovesWhole(mode, answer, archiveName, dir, names) && !mode.ArchiveNameDirectory? {
      assert forall i :: 0 <= i < |names| ==> names[i] in names;
      OverlayPointwise(dir - {staging}, dir[staging].children, n);
      if answer.KeepBothEntries? && AnyTaken(names, dir) {
        KeepBothConserves(dir, dir[staging].children, names);
      }
    }
  }

  /** What holds of the target directory when a submission began and failed. */
  ghost predicate SubmittedInPart(mode: Mode, answer: Resolution, archiveName: string, dir: map<string, Tree>,
                                  staging: string, names: seq<string>, left: map<string, Tree>)
  {
    && staging in dir && dir[staging].Dir? && Lists(names, dir[staging].children)
    && !MovesWhole(mode, answer, archiveName, dir, names)
    && if mode.ArchiveNameDirectory? then answer.Overwrite? && MergedSoFar(dir, staging, archiveName, left)
       else KeptSoFar(answer.KeepBothEntries? && AnyTaken(names, dir), dir, staging, dir[staging].children, left)
  }

  /** A merge onto the named directory, however far it got: the two still overlay to the intended result. */
  ghost predicate MergedSoFar(dir: map<string, Tree>, staging: string, archiveName: string, left: map<string, Tree>) {
    && staging in dir && archiveName in dir
    && OverlayEntries(Entry(left, archiveName), Entry(left, staging)) == Some(Overlay(dir[archiveName], dir[staging]))
    && forall n :: n != archiveName && n != staging ==> Entry(left, n) == Entry(dir, n)
  }

  /** Removing the emptied staging directory, or failing to, keeps what was kept. */
  lemma KeptAfterRemoval(keepBoth: bool, dir: map<string, Tree>, staging: string, staged: map<string, Tree>,
                         left: map<string, Tree>, entry: Option<Tree>)
    requires KeptSoFar(keepBoth, dir, staging, staged, left)
    requires staging in left && left[staging] == Dir(map[]) && Pruned(entry, Dir(map[]))
    ensures KeptSoFar(keepBoth, dir, staging, staged, WithEntry(left, staging, entry))
  {
    OverlayNothing(left - {staging});
    assert WithEntry(left, staging, entry) - {staging} == left - {staging};
    assert entry.Some? ==> entry.value == Dir(map[]);
  }

  /** The names from the `k`-th on, and only they, are still staged. */
  predicate StillStaged(names: seq<string>, k: nat, staged: map<string, Tree>, s: map<string, Tree>)
    requires k <= |names|
  {
    && (forall i :: k <= i < |names| ==> names[i] in s)
    && (forall n :: n in s ==> n in names[k..] && n in staged && s[n] == staged[n])
  }

  /** The state of the submission loop after `k` of the listed names. */
  ghost predicate Submitting(keepBoth: bool, dir: map<string, Tree>, staging: string, staged: map<string, Tree>,
                             names: seq<string>, k: nat, kept: map<string, Tree>, s: map<string, Tree>,
                             left: map<string, Tree>, done: seq<string>)
  {
    && Lists(names, staged) && staging !in staged && staging in dir && dir[staging] == Dir(staged)
    && k <= |names| && staging in left && left[staging] == Dir(s)
    && StillStaged(names, k, staged, s)
    && if keepBoth then
         && left == kept[staging := Dir(s)] && staging in kept
         && KeepBoth(dir, staged, names[..k]) == Some(Placement(kept, done))
       else
         && done == names[..k] && EarlierKept(false, dir, staging, staged, left)
         && Overlay(Dir(left - {staging}), Dir(s)) == Overlay(Dir(dir - {staging}), Dir(staged))
  }

  lemma SubmittingStarts(keepBoth: bool, dir: map<string, Tree>, staging: string, staged: map<string, Tree>,
                         names: seq<string>)
    requires Lists(names, staged) && staging !in staged && staging in dir && dir[staging] == Dir(staged)
    ensures Submitting(keepBoth, dir, staging, staged, names, 0, dir, staged, dir, [])
  {
    assert names[..0] == [] && names[0..] == names;
    assert dir == dir[staging := Dir(staged)];
  }

  /** The next name is still staged. */
  lemma NextStaged(keepBoth: bool, dir: map<string, Tree>, staging: string, staged: map<string, Tree>,
                   names: seq<string>, k: nat, kept: map<string, Tree>, s: map<string, Tree>, left: map<string, Tree>,
                   done: seq<string>)
    requires k < |names| && Submitting(keepBoth, dir, staging, staged, names, k, kept, s, left, done)
    ensures names[k] in s && names[k] in staged && names[k] != staging && staging in left && left[staging] == Dir(s)
  {
    hide KeepBoth, Overlay;
  }

  /** What was submitted so far is kept. */
  lemma SubmittingKeeps(keepBoth: bool, dir: map<string, Tree>, staging: string, staged: map<string, Tree>,
                        names: seq<string>, k: nat, kept: map<string, Tree>, s: map<string, Tree>,
                        left: map<string, Tree>, done: seq<string>)
    requires Submitting(keepBoth, dir, staging, staged, names, k, kept, s, left, done)
    ensures KeptSoFar(keepBoth, dir, staging, staged, left)
  {
    hide KeepBoth, Overlay;
    if keepBoth {
      assert forall i :: 0 <= i < k ==> names[..k][i] in names;
      KeepBothConserves(dir, staged, names[..k]);
    }
  }

  /** Under keep-both the next name can be placed whenever all names can. */
  lemma NextCanBePlaced(dir: map<string, Tree>, staging: string, staged: map<string, Tree>, names: seq<string>, k: nat,
                        kept: map<string, Tree>, s: map<string, Tree>, left: map<string, Tree>, done: seq<string>)
    requires k < |names| && Submitting(true, dir, staging, staged, names, k, kept, s, left, done)
    ensures forall i :: 0 <= i < |names| ==> names[i] in staged
    ensures KeepBoth(dir, staged, names).Some? ==> FirstFree(left.Keys, names[k]).Some?
  {
    hide KeepBoth, FirstFree;
    assert left.Keys == kept.Keys;
    assert forall i :: 0 <= i < |names| ==> names[i] in names;
    if KeepBoth(dir, staged, names).Some? {
      KeepBothGoesOn(dir, staged, names, k);
    }
  }

  lemma RemainingAfter(names: seq<string>, k: nat, staged: map<string, Tree>, s: map<string, Tree>)
    requires k < |names| && Distinct(names) && StillStaged(names, k, staged, s)
    ensures names[k] in s && names[k] in staged && s[names[k]] == staged[names[k]]
    ensures StillStaged(names, k + 1, staged, s - {names[k]})
  {
    assert names[k..] == [names[k]] + names[k + 1..];
  }

  lemma PlacedNext(dir: map<string, Tree>, staging: string, staged: map<string, Tree>, names: seq<string>, k: nat,
                   kept: map<string, Tree>, s: map<string, Tree>, left: map<string, Tree>, done: seq<string>,
                   place: string)
    requires k < |names| && names[k] in s && Submitting(true, dir, staging, staged, names, k, kept, s, left, done)
    requires FirstFree(left.Keys, names[k]) == Some(place)
    ensures Submitting(true, dir, staging, staged, names, k + 1, kept[place := s[names[k]]], s - {names[k]},
                       Stepped(left, staging, s, place, Some(s[names[k]]), names[k], None), done + [place])
  {
    hide KeepBoth, FirstFree, Stepped, StillStaged;
    FreeIsNew(left.Keys, names[k]);
    assert left.Keys == kept.Keys;
    RemainingAfter(names, k, staged, s);
    assert forall i :: 0 <= i < |names| ==> names[i] in names;
    KeepBothStep(dir, staged, names, k, kept, done, place);
    SteppedKeeping(kept, staging, s, place, names[k]);
  }

  lemma OverwrittenKeeps(dir: map<string, Tree>, staging: string, staged: map<string, Tree>, left: map<string, Tree>,
                         s: map<string, Tree>, name: string, a: Option<Tree>, b: Option<Tree>)
    requires name in staged && name != staging && EarlierKept(false, dir, staging, staged, left)
    requires Overlay(Dir(left - {staging}), Dir(s)) == Overlay(Dir(dir - {staging}), Dir(staged))
    requires OverlayEntries(a, b) == OverlayEntries(Entry(left, name), Entry(s, name))
    ensures KeptSoFar(false, dir, staging, staged, Stepped(left, staging, s, name, a, name, b))
  {
    hide Overlay, Stepped, EarlierKept;
    SteppedOutside(left, staging, s, name, a, b);
    SteppedSpares(dir, staging, staged, left, s, name, a, b);
  }

  /** A merge that stopped part way has kept what was there. */
  lemma OverwrittenSoFar(dir: map<string, Tree>, staging: string, staged: map<string, Tree>, names: seq<string>,
                         k: nat, kept: map<string, Tree>, s: map<string, Tree>, left: map<string, Tree>,
                         done: seq<string>, a: Option<Tree>, b: Option<Tree>)
    requires k < |names| && names[k] in s && names[k] != staging
    requires Submitting(false, dir, staging, staged, names, k, kept, s, left, done)
    requires OverlayEntries(a, b) == OverlayEntries(Entry(left, names[k]), Entry(s, names[k]))
    ensures KeptSoFar(false, dir, staging, staged, Stepped(left, staging, s, names[k], a, names[k], b))
  {
    hide Overlay, Stepped, EarlierKept, KeptSoFar, OverlayEntries;
    OverwrittenKeeps(dir, staging, staged, left, s, names[k], a, b);
  }

  lemma OverwrittenNext(dir: map<string, Tree>, staging: string, staged: map<string, Tree>, names: seq<string>, k: nat,
                        kept: map<string, Tree>, s: map<string, Tree>, left: map<string, Tree>, done: seq<string>,
                        a: Option<Tree>)
    requires k < |names| && names[k] in s && names[k] != staging
    requires Submitting(false, dir, staging, staged, names, k, kept, s, left, done)
    requires a == OverlayEntries(Entry(left, names[k]), Entry(s, names[k]))
    ensures Submitting(false, dir, staging, staged, names, k + 1, kept, s - {names[k]},
                       Stepped(left, staging, s, names[k], a, names[k], None), done + [names[k]])
  {
    hide Overlay, Stepped, EarlierKept, StillStaged;
    RemainingAfter(names, k, staged, s);
    SteppedOutside(left, staging, s, names[k], a, None);
    SteppedSpares(dir, staging, staged, left, s, names[k], a, None);
    assert names[..k + 1] == names[..k] + [names[k]];
  }

  lemma SubmittingEnds(keepBoth: bool, dir: map<string, Tree>, staging: string, staged: map<string, Tree>,
                       names: seq<string>, kept: map<string, Tree>, s: map<string, Tree>, left: map<string, Tree>,
                       done: seq<string>)
    requires Submitting(keepBoth, dir, staging, staged, names, |names|, kept, s, left, done)
    ensures staging in left && left[staging] == Dir(map[])
    ensures if keepBoth then
              && KeepBoth(dir, staged, names) == Some(Placement(kept, done)) && left - {staging} == kept - {staging}
            else
              done == names && Dir(left - {staging}) == Overlay(Dir(dir - {staging}), Dir(staged))
  {
    hide KeepBoth, Overlay;
    assert names[..|names|] == names && names[|names|..] == [];
    assert s == map[];
    OverlayNothing(left - {staging});
  }

  /** The entries that are not on the way of a staged one are as they were; keeping both, no entry is on the way. */
  predicate EarlierKept(keepBoth: bool, dir: map<string, Tree>, staging: string, staged: map<string, Tree>,
                        left: map<string, Tree>)
  {
    forall n :: n in dir && n != staging && (keepBoth || n !in staged) ==> n in left && left[n] == dir[n]
  }

  /** What holds of the target directory however far the submission of the staged entries got. */
  ghost predicate KeptSoFar(keepBoth: bool, dir: map<string, Tree>, staging: string, staged: map<string, Tree>,
                            left: map<string, Tree>)
  {
    && EarlierKept(keepBoth, dir, staging, staged, left)
    && (!keepBoth ==>
          OverlayEntries(Some(Dir(left - {staging})), Entry(left, staging))
          == Some(Overlay(Dir(dir - {staging}), Dir(staged))))
  }

  lemma SteppedKeeping(kept: map<string, Tree>, staging: string, s: map<string, Tree>, place: string, name: string)
    requires place != staging && name in s
    ensures Stepped(kept[staging := Dir(s)], staging, s, place, Some(s[name]), name, None)
            == kept[place := s[name]][staging := Dir(s - {name})]
  {
  }

  lemma SteppedSpares(dir: map<string, Tree>, staging: string, staged: map<string, Tree>, left: map<string, Tree>,
                      s: map<string, Tree>, name: string, a: Option<Tree>, b: Option<Tree>)
    requires EarlierKept(false, dir, staging, staged, left) && name in staged
    ensures EarlierKept(false, dir, staging, staged, Stepped(left, staging, s, name, a, name, b))
  {
  }

  lemma SteppedOutside(left: map<string, Tree>, staging: string, s: map<string, Tree>, name: string, a: Option<Tree>,
                       b: Option<Tree>)
    requires name != staging
    requires OverlayEntries(a, b) == OverlayEntries(Entry(left, name), Entry(s, name))
    ensures var after := Stepped(left, staging, s, name, a, name, b);
            && staging in after && after[staging] == Dir(WithEntry(s, name, b))
            && Overlay(Dir(after - {staging}), Dir(WithEntry(s, name, b))) == Overlay(Dir(left - {staging}), Dir(s))
  {
    hide Overlay;
    var after := Stepped(left, staging, s, name, a, name, b);
    assert after - {staging} == WithEntry(left - {staging}, name, a);
    OverlayStep(left - {staging}, s, name, a, b);
  }

  // ---------------------------------------------------------------------------------------------
  // What an extraction spares

  /** Everything an extraction registers: its temporary names in the target directory, and missing directories. */
  ghost predicate OwnPaths(start: Tree, target: Path, expanded: Option<string>, staging: string, temps: seq<Path>,
                           dirs: seq<Path>)
  {
    && (forall p :: p in temps ==> p == target + [staging] || (expanded.Some? && p == target + [expanded.value]))
    && (forall d :: d in dirs ==> d <= target && Lookup(start, d).None?)
  }

  /** Nothing apart from the target directory differs, nor anything in it but what may be replaced. */
  ghost predicate Spared(start: Tree, root: Tree, target: Path, replaced: set<string>) {
    && (forall q :: Disjoint(q, target) ==> Lookup(root, q) == Lookup(start, q))
    && (forall n :: n !in replaced && Lookup(start, target + [n]).Some? ==>
                      Lookup(root, target + [n]) == Lookup(start, target + [n]))
  }

  ghost predicate TemporaryNamesFree(start: Tree, target: Path, expanded: Option<string>, staging: string) {
    && Lookup(start, target + [staging]).None?
    && (expanded.Some? ==> Lookup(start, target + [expanded.value]).None?)
  }

  /** A path that no registered path leads to and none lies above, so cleanup leaves it alone. */
  predicate OutOfTheWay(q: Path, temps: seq<Path>, dirs: seq<Path>) {
    && (forall p :: p in temps ==> Disjoint(p, q))
    && (forall d :: d in dirs ==> !(q <= d))
  }

  lemma ApartIsOutOfTheWay(start: Tree, target: Path, expanded: Option<string>, staging: string, temps: seq<Path>,
                           dirs: seq<Path>, q: Path)
    requires OwnPaths(start, target, expanded, staging, temps, dirs) && Disjoint(q, target)
    ensures OutOfTheWay(q, temps, dirs)
  {
    forall p | p in temps
      ensures Disjoint(p, q)
    {
      BelowIsApart(target, p[|target|], q);
    }
    assert forall d :: d in dirs && q <= d ==> q <= target;
  }

  lemma BelowIsApart(target: Path, name: string, q: Path)
    requires Disjoint(q, target)
    ensures Disjoint(target + [name], q)
  {
    assert |q| <= |target| ==> (target + [name])[..|q|] == target[..|q|];
    assert (target + [name])[..|target|] == target;
  }

  lemma PresentIsOutOfTheWay(start: Tree, target: Path, expanded: Option<string>, staging: string, temps: seq<Path>,
                             dirs: seq<Path>, n: string)
    requires OwnPaths(start, target, expanded, staging, temps, dirs)
    requires TemporaryNamesFree(start, target, expanded, staging)
    requires Lookup(start, target + [n]).Some?
    ensures OutOfTheWay(target + [n], temps, dirs) && dirs == []
  {
    hide Lookup;
    forall p | p in temps
      ensures Disjoint(p, target + [n])
    {
      SiblingsApart(target, Some(p[|target|]), n);
    }
    if dirs != [] {
      assert dirs[0] in dirs && dirs[0] <= target <= target + [n];
      PrefixExists(start, target + [n], dirs[0]);
    }
  }

  lemma PutUnseenAround(tree: Tree, path: Path, entry: Option<Tree>)
    requires Placeable(tree, path)
    ensures forall q :: Disjoint(path, q) ==> Lookup(Put(tree, path, entry), q) == Lookup(tree, q)
  {
    forall q | Disjoint(path, q)
      ensures Lookup(Put(tree, path, entry), q) == Lookup(tree, q)
    {
      PutUnseen(tree, path, entry, q);
    }
  }

  /** Taking an empty directory away is seen only at it and above it. */
  lemma {:induction false} EmptyUnseen(tree: Tree, dir: Path, q: Path)
    requires dir != [] && Lookup(tree, dir) == Some(Dir(map[])) && !(q <= dir)
    ensures Placeable(tree, dir) && Lookup(Put(tree, dir, None), q) == Lookup(tree, q)
    decreases |dir|
  {
    FoundIsPlaceable(tree, dir);
    if dir[0] == q[0] {
      if |dir| > 1 {
        assert dir == [dir[0]] + dir[1..] && q == [q[0]] + q[1..];
        EmptyUnseen(tree.children[dir[0]], dir[1..], q[1..]);
      } else {
        assert tree.children[q[0]] == Dir(map[]) && q[1..] != [];
      }
    }
  }

  lemma EmptyUnseenAround(tree: Tree, dir: Path)
    requires dir != [] && Lookup(tree, dir) == Some(Dir(map[]))
    ensures Placeable(tree, dir) && forall q :: !(q <= dir) ==> Lookup(Put(tree, dir, None), q) == Lookup(tree, q)
  {
    FoundIsPlaceable(tree, dir);
    forall q | !(q <= dir)
      ensures Lookup(Put(tree, dir, None), q) == Lookup(tree, q)
    {
      EmptyUnseen(tree, dir, q);
    }
  }

  lemma RemovalUnseen(before: Tree, path: Path, after: Tree)
    requires Lookup(before, path).None? ==> after == before
    requires Lookup(before, path).Some? ==> Placeable(before, path) && after == Put(before, path, Lookup(after, path))
    ensures forall q :: Disjoint(path, q) ==> Lookup(after, q) == Lookup(before, q)
  {
    if Lookup(before, path).Some? {
      PutUnseenAround(before, path, Lookup(after, path));
    }
  }

  lemma {:induction false} EmptiedUnseen(tree: Tree, dirs: seq<Path>, q: Path)
    requires Emptied(tree, dirs) && forall i :: 0 <= i < |dirs| ==> dirs[i] != [] && !(q <= dirs[i])
    ensures Lookup(ClearedAll(tree, dirs), q) == Lookup(tree, q)
    decreases |dirs|
  {
    hide Lookup, Put, Placeable;
    if dirs != [] {
      var last := dirs[|dirs| - 1];
      EmptyUnseen(tree, last, q);
      EmptiedUnseen(Cleared(tree, last), dirs[..|dirs| - 1], q);
    }
  }

  lemma {:induction false} ClearedUnseen(tree: Tree, paths: seq<Path>, q: Path)
    requires forall p :: p in paths ==> Disjoint(p, q)
    ensures Lookup(ClearedAll(tree, paths), q) == Lookup(tree, q)
    decreases |paths|
  {
    hide Lookup, Put, Placeable;
    if paths != [] {
      var last := paths[|paths| - 1];
      assert last in paths;
      LookupAfterClearing(tree, q, last);
      ClearedUnseen(Cleared(tree, last), paths[..|paths| - 1], q);
    }
  }

  lemma UndoneUnseen(root: Tree, temps: seq<Path>, dirs: seq<Path>, start: Tree, q: Path)
    requires Undoable(root, temps, dirs, start) && OutOfTheWay(q, temps, dirs)
    ensures Lookup(root, q) == Lookup(start, q)
  {
    hide Lookup, ClearedAll, Emptied;
    ClearedUnseen(root, temps, q);
    assert forall i :: 0 <= i < |dirs| ==> dirs[i] in dirs;
    EmptiedUnseen(ClearedAll(root, temps), dirs, q);
  }

  /** An operation that can still be undone has spared everything. */
  lemma UndoableIsSpared(start: Tree, root: Tree, target: Path, expanded: Option<string>, staging: string,
                         temps: seq<Path>, dirs: seq<Path>)
    requires OwnPaths(start, target, expanded, staging, temps, dirs)
    requires TemporaryNamesFree(start, target, expanded, staging)
    requires Undoable(root, temps, dirs, start)
    ensures Spared(start, root, target, {})
  {
    hide Lookup, Undoable, OwnPaths, TemporaryNamesFree, OutOfTheWay, Disjoint;
    forall q | Disjoint(q, target)
      ensures Lookup(root, q) == Lookup(start, q)
    {
      ApartIsOutOfTheWay(start, target, expanded, staging, temps, dirs, q);
      UndoneUnseen(root, temps, dirs, start, q);
    }
    forall n | Lookup(start, target + [n]).Some?
      ensures Lookup(root, target + [n]) == Lookup(start, target + [n])
    {
      PresentIsOutOfTheWay(start, target, expanded, staging, temps, dirs, n);
      UndoneUnseen(root, temps, dirs, start, target + [n]);
    }
  }

  lemma NothingIsOwn(start: Tree, target: Path, expanded: Option<string>, staging: string)
    ensures OwnPaths(start, target, expanded, staging, [], [])
  {
  }

  lemma NothingRegistered(start: Tree, target: Path, expanded: Option<string>, staging: string)
    ensures OwnPaths(start, target, expanded, staging, [], []) && Spared(start, start, target, {})
  {
  }

  lemma MissingAreOwn(start: Tree, target: Path, expanded: Option<string>, staging: string, dirs: seq<Path>)
    requires forall i :: 0 <= i < |dirs| ==> dirs[i] <= target && Lookup(start, dirs[i]).None?
    ensures OwnPaths(start, target, expanded, staging, [], dirs)
  {
  }

  lemma TemporariesAreOwn(start: Tree, target: Path, expanded: Option<string>, staging: string, temps: seq<Path>,
                          dirs: seq<Path>)
    requires OwnPaths(start, target, expanded, staging, [], dirs)
    requires forall p :: p in temps ==> p == target + [staging] || (expanded.Some? && p == target + [expanded.value])
    ensures OwnPaths(start, target, expanded, staging, temps, dirs)
  {
  }

  /** Cleanup after a sparing operation spares what the operation spared. */
  lemma CleanupSpares(start: Tree, mid: Tree, root: Tree, target: Path, expanded: Option<string>, staging: string,
                      temps: seq<Path>, dirs: seq<Path>, replaced: set<string>)
    requires OwnPaths(start, target, expanded, staging, temps, dirs)
    requires TemporaryNamesFree(start, target, expanded, staging)
    requires Spared(start, mid, target, replaced)
    requires forall q :: OutOfTheWay(q, temps, dirs) ==> Lookup(root, q) == Lookup(mid, q)
    ensures Spared(start, root, target, replaced)
  {
    hide Lookup, OwnPaths, TemporaryNamesFree, OutOfTheWay, Disjoint;
    forall q | Disjoint(q, target)
      ensures Lookup(root, q) == Lookup(start, q)
    {
      ApartIsOutOfTheWay(start, target, expanded, staging, temps, dirs, q);
    }
    forall n | n !in replaced && Lookup(start, target + [n]).Some?
      ensures Lookup(root, target + [n]) == Lookup(start, target + [n])
    {
      PresentIsOutOfTheWay(start, target, expanded, staging, temps, dirs, n);
    }
  }

  /** What the contract of a commit says of the whole operation. */
  lemma CommitMeans(reliable: bool, before: Tree, root: Tree, target: Path, staging: string, archiveName: string,
                    mode: Mode, answer: Resolution, dir: map<string, Tree>, names: seq<string>,
                    places: Option<seq<string>>, begun: bool, start: Tree, made: Tree)
    requires CommitContract(reliable, before, root, target, staging, archiveName, mode, answer, dir, names, places,
                            begun)
    requires Placeable(made, target) && Lookup(made, target) == Some(Dir(dir - {staging}))
    requires forall entry :: Put(before, target, entry) == Put(made, target, entry)
    requires made == WithDirectories(start, target)
    ensures !begun ==> root == before && places.None?
    ensures places.Some? ==>
              Extracted(start, root, target, staging, archiveName, mode, answer, dir, names, places.value)
    ensures answer.Cancel? ==> (Asks(mode, archiveName, dir, names) ==> !begun)
    ensures root == Put(made, target, Lookup(root, target))
  {
    hide Lookup, Put, Placeable, WithDirectories, Submitted, SubmittedInPart, Asks;
  }

  /** The directories along the target path made, and the staged output committed into the last one. */
  ghost predicate Extracted(before: Tree, after: Tree, target: Path, staging: string, archiveName: string, mode: Mode,
                            answer: Resolution, dir: map<string, Tree>, names: seq<string>, places: seq<string>)
  {
    var made := WithDirectories(before, target);
    && Placeable(made, target) && Lookup(made, target) == Some(Dir(dir - {staging}))
    && Lookup(after, target).Some? && Lookup(after, target).value.Dir?
    && after == Put(made, target, Lookup(after, target))
    && Submitted(mode, answer, archiveName, dir, staging, names, Lookup(after, target).value.children, places)
  }

  /** A commit that began has spared what it must, also when it failed. */
  lemma CommitSpares(reliable: bool, before: Tree, root: Tree, target: Path, expanded: Option<string>, staging: string,
                     archiveName: string, mode: Mode, answer: Resolution, dir: map<string, Tree>, names: seq<string>,
                     places: Option<seq<string>>, start: Tree, made: Tree, dirs: seq<Path>)
    requires CommitContract(reliable, before, root, target, staging, archiveName, mode, answer, dir, names, places,
                            true)
    requires target != [] && OwnPaths(start, target, expanded, staging, [], dirs)
    requires TemporaryNamesFree(start, target, expanded, staging) && Undoable(made, [], dirs, start)
    requires Placeable(made, target) && Lookup(made, target) == Some(Dir(dir - {staging}))
    requires root == Put(made, target, Lookup(root, target))
    ensures Spared(start, root, target, Replaceable(mode, answer, archiveName, names))
  {
    hide Lookup, Put, Placeable, Undoable, OwnPaths, TemporaryNamesFree, OutOfTheWay, Submitted, SubmittedInPart,
         Replaceable;
    forall q | Disjoint(q, target)
      ensures Lookup(root, q) == Lookup(start, q)
    {
      ApartIsOutOfTheWay(start, target, expanded, staging, [], dirs, q);
      UndoneUnseen(made, [], dirs, start, q);
      PutUnseen(made, target, Lookup(root, target), q);
    }
    forall n | n !in Replaceable(mode, answer, archiveName, names) && Lookup(start, target + [n]).Some?
      ensures Lookup(root, target + [n]) == Lookup(start, target + [n])
    {
      PresentIsOutOfTheWay(start, target, expanded, staging, [], dirs, n);
      UndoneUnseen(made, [], dirs, start, target + [n]);
      PutBelow(made, target, dir - {staging}, n, None);
      CommitKeepsOthers(reliable, before, root, target, staging, archiveName, mode, answer, dir, names, places, n);
      PutBelow(root, target, Lookup(root, target).value.children, n, None);
    }
  }

  // ---------------------------------------------------------------------------------------------
  // Cleanup and the directories along the target path

  function EntryOr(tree: Tree, path: Path): (entry: Tree) {
    match Lookup(tree, path) case Some(entry) => entry case None => Special
  }

  lemma RemovedIsCleared(before: Tree, path: Path, after: Tree)
    requires Lookup(after, path).None?
    requires Lookup(before, path).None? ==> after == before
    requires Lookup(before, path).Some? ==> Placeable(before, path) && after == Put(before, path, Lookup(after, path))
    ensures after == Cleared(before, path)
  {
    if Lookup(before, path).None? {
      ClearedMissing(before, path);
    }
  }

  lemma UndoableMeans(root: Tree, temps: seq<Path>, dirs: seq<Path>, start: Tree)
    requires Undoable(root, temps, dirs, start)
    ensures var made := ClearedAll(root, temps);
            Nested(dirs) && Emptied(made, dirs) && ClearedAll(made, dirs) == start
  {
  }

  lemma SortedLike(dirs: seq<Path>)
    ensures forall d :: d in dirs <==> d in DeepestFirst(dirs)
    ensures |DeepestFirst(dirs)| == |dirs|
    ensures Nested(dirs) ==>
              forall i :: 0 <= i < |dirs| ==> DeepestFirst(dirs)[i] == dirs[|dirs| - 1 - i]
  {
    forall d
      ensures d in dirs <==> d in DeepestFirst(dirs)
    {
      SortKeepsAll(dirs, d);
    }
    SortKeepsLength(dirs);
    if Nested(dirs) {
      LongestIsDeepest(dirs);
    }
  }

  lemma NestedIsBelow(dirs: seq<Path>, i: nat)
    requires i < |dirs|
    ensures Nested(dirs) ==> dirs[|dirs| - 1 - i] != []
  {
  }

  lemma NothingToClear(root: Tree)
    ensures Emptied(root, []) && ClearedAll(root, []) == root && Nested([])
  {
  }

  ghost predicate HoldsDirectory(tree: Tree, path: Path) {
    Lookup(tree, path).Some? && Lookup(tree, path).value.Dir?
  }

  /** Whatever exists along the path is a directory. */
  ghost predicate NothingInTheWay(tree: Tree, path: Path) {
    forall k :: 0 <= k <= |path| && Lookup(tree, path[..k]).Some? ==> Lookup(tree, path[..k]).value.Dir?
  }

  /** The next missing directory has a directory to be made in, and is still missing. */
  lemma CanBeMade(tree: Tree, target: Path, missing: seq<Path>, i: nat)
    requires MissingTail(target, missing) && i < |missing|
    requires i == 0 ==> HoldsDirectory(tree, target[..|target| - |missing|]) && Lookup(tree, missing[0]).None?
    requires i > 0 ==> Lookup(tree, missing[i - 1]) == Some(Dir(map[]))
    ensures Placeable(tree, missing[i]) && Lookup(tree, missing[i]).None?
  {
    var k := |target| - |missing| + i;
    var parent := target[..k];
    assert missing[i] == parent + [target[k]];
    assert i > 0 ==> missing[i - 1] == parent;
    var children := Lookup(tree, parent).value.children;
    if parent != [] {
      PutBelow(tree, parent, children, target[k], None);
    } else {
      assert missing[i] == [target[k]];
    }
  }

  lemma RootIsDirectory(tree: Tree)
    requires tree.Dir?
    ensures HoldsDirectory(tree, [])
  {
  }

  /** The tree after the first `i` of the missing directories were made. */
  ghost predicate Making(start: Tree, target: Path, missing: seq<Path>, i: nat, root: Tree) {
    && MissingTail(target, missing) && i <= |missing| && AllNames(target) && target != []
    && (forall j :: 0 <= j < |missing| ==> Lookup(start, missing[j]).None?)
    && Nested(missing[..i]) && Emptied(root, missing[..i]) && ClearedAll(root, missing[..i]) == start
    && WithDirectories(root, target) == WithDirectories(start, target)
    && (i == 0 ==> root == start && HoldsDirectory(root, target[..|target| - |missing|]))
    && (i > 0 ==> Lookup(root, missing[i - 1]) == Some(Dir(map[])))
  }

  lemma MakingStarts(start: Tree, target: Path, missing: seq<Path>)
    requires MissingTail(target, missing) && AllNames(target) && target != []
    requires forall j :: 0 <= j < |missing| ==> Lookup(start, missing[j]).None?
    requires HoldsDirectory(start, target[..|target| - |missing|])
    ensures Making(start, target, missing, 0, start) && missing[..0] == []
  {
    NothingToClear(start);
    assert missing[..0] == [];
  }

  lemma MakingSoFar(start: Tree, target: Path, missing: seq<Path>, i: nat, root: Tree)
    requires Making(start, target, missing, i, root)
    ensures i <= |missing|
    ensures Nested(missing[..i]) && Emptied(root, missing[..i]) && ClearedAll(root, missing[..i]) == start
    ensures forall j :: 0 <= j < i ==> missing[..i][j] <= target && Lookup(start, missing[..i][j]).None?
  {
    hide Nested, Emptied, ClearedAll, WithDirectories, Lookup;
    MissingArePrefixes(target, missing);
  }

  /** The next directory can be made, and what making it leaves. */
  lemma MakingNext(start: Tree, target: Path, missing: seq<Path>, i: nat, root: Tree)
    requires i < |missing| && Making(start, target, missing, i, root)
    ensures Placeable(root, missing[i]) && Lookup(root, missing[i]).None?
    ensures Making(start, target, missing, i + 1, Put(root, missing[i], Some(Dir(map[]))))
  {
    hide Nested, Emptied, ClearedAll, WithDirectories, Lookup, Put, Placeable, HoldsDirectory, MissingTail;
    CanBeMade(root, target, missing, i);
    OneMoreEmptied(root, missing[i], missing[..i]);
    MissingArePrefixes(target, missing);
    OneDirectoryMade(root, missing[i], target);
    NestedDeeper(target, missing, i);
    assert missing[..i + 1] == missing[..i] + [missing[i]];
  }

  lemma MakingEnds(start: Tree, target: Path, missing: seq<Path>, root: Tree)
    requires Making(start, target, missing, |missing|, root)
    ensures root == WithDirectories(start, target) && HoldsDirectory(root, target)
    ensures Lookup(root, target).Some? && Lookup(root, target).value.Dir?
  {
    hide Nested, Emptied, ClearedAll, WithDirectories, Lookup;
    MissingArePrefixes(target, missing);
    if missing == [] {
      assert target[..|target|] == target;
    }
    AllDirectoriesMade(root, target);
  }

  /** The last `|missing|` prefixes of a path, the path itself last. */
  predicate MissingTail(target: Path, missing: seq<Path>) {
    && |missing| <= |target|
    && forall i :: 0 <= i < |missing| ==> missing[i] == target[..|target| - |missing| + 1 + i]
  }

  lemma MissingArePrefixes(target: Path, missing: seq<Path>)
    requires MissingTail(target, missing)
    ensures forall i :: 0 <= i < |missing| ==> missing[i] <= target && missing[i] != []
    ensures missing != [] ==> missing[|missing| - 1] == target
  {
  }

  lemma NestedDeeper(target: Path, missing: seq<Path>, i: nat)
    requires MissingTail(target, missing) && i < |missing| && AllNames(target)
    ensures Nested(missing[..i + 1])
  {
    var k := |target| - |missing|;
    forall j | 0 < j <= i
      ensures missing[j - 1] <= missing[j] && missing[j - 1] != missing[j]
    {
      assert missing[j - 1] == target[..k + j] && missing[j] == target[..k + 1 + j];
    }
  }

  /** A child of a directory, and the directory once that child is replaced. */
  lemma ChildReplaced(tree: Tree, target: Path, dir: map<string, Tree>, name: string, entry: Option<Tree>)
    requires target != [] && Lookup(tree, target) == Some(Dir(dir))
    ensures Placeable(tree, target + [name]) && Lookup(tree, target + [name]) == Entry(dir, name)
    ensures Lookup(Put(tree, target + [name], entry), target) == Some(Dir(WithEntry(dir, name, entry)))
    ensures Lookup(Put(tree, target + [name], entry), target + [name]) == entry
  {
    hide Put, Lookup, Placeable;
    PutBelow(tree, target, dir, name, entry);
    PutThenSame(tree, target, Some(Dir(WithEntry(dir, name, entry))), None);
    PutThenSame(tree, target + [name], entry, None);
  }

  lemma SiblingsApart(target: Path, expanded: Option<string>, staging: string)
    requires expanded.Some? ==> expanded.value != staging
    ensures expanded.Some? ==> Disjoint(target + [expanded.value], target + [staging])
  {
    assert (target + [staging])[|target|] == staging;
    assert expanded.Some? ==> (target + [expanded.value])[|target|] == expanded.value;
  }

  lemma WithoutFirst(target: Path, expanded: string, staging: string)
    requires expanded != staging
    ensures Without([target + [expanded], target + [staging]], target + [expanded]) == [target + [staging]]
    ensures Without([target + [expanded]] + [target + [staging]], target + [expanded]) == [target + [staging]]
  {
    var p, q := target + [expanded], target + [staging];
    SiblingsApart(target, Some(expanded), staging);
    assert [p, q][..1] == [p] && [p][..0] == [] && [p] + [q] == [p, q];
    assert Without([p], p) == [];
  }

  lemma NothingToUndo(root: Tree)
    ensures Reverts(root, [], [], root, root) && Undoable(root, [], [], root)
  {
  }

  lemma OnlyDirectories(made: Tree, dirs: seq<Path>, start: Tree)
    requires Emptied(made, dirs) && Nested(dirs) && ClearedAll(made, dirs) == start
    ensures Reverts(made, [], dirs, made, start)
  {
  }

  /** Names not in use before the target path was made are not in use afterwards. */
  lemma StillFresh(start: Tree, target: Path, expanded: Option<string>, staging: string)
    requires target != [] && Lookup(start, target + [staging]).None?
    requires expanded.Some? ==> Lookup(start, target + [expanded.value]).None?
    requires var made := WithDirectories(start, target); Lookup(made, target).Some? && Lookup(made, target).value.Dir?
    ensures var children := Lookup(WithDirectories(start, target), target).value.children;
            staging !in children && (expanded.Some? ==> expanded.value !in children)
  {
    var made := WithDirectories(start, target);
    var children := Lookup(made, target).value.children;
    NothingNewInside(start, target, staging);
    PutBelow(made, target, children, staging, None);
    if expanded.Some? {
      NothingNewInside(start, target, expanded.value);
      PutBelow(made, target, children, expanded.value, None);
    }
  }

  /** With only the staging directory left to clear, replacing the target directory is replacing it in `made`. */
  lemma AtCommit(root: Tree, target: Path, staging: string, dirs: seq<Path>, made: Tree, start: Tree,
                 dir: map<string, Tree>)
    requires Reverts(root, [target + [staging]], dirs, made, start)
    requires target != [] && Lookup(root, target) == Some(Dir(dir))
    ensures Placeable(made, target) && Lookup(made, target) == Some(Dir(dir - {staging})) && Placeable(root, target)
    ensures forall entry :: Put(root, target, entry) == Put(made, target, entry)
  {
    hide Put, Lookup, Placeable;
    var path := target + [staging];
    ClearedOne(root, path);
    PutBelow(root, target, dir, staging, None);
    assert made == Put(root, target, Some(Dir(dir - {staging})));
    forall entry
      ensures Placeable(made, target) && Put(root, target, entry) == Put(made, target, entry)
    {
      PutThenSame(root, target, Some(Dir(dir - {staging})), entry);
    }
    PutThenSame(root, target, Some(Dir(dir - {staging})), None);
  }

  lemma ClearedOne(root: Tree, path: Path)
    ensures ClearedAll(root, [path]) == Cleared(root, path)
  {
    assert [path][..0] == [];
    assert ClearedAll(Cleared(root, path), []) == Cleared(root, path);
  }

  lemma WithoutOnly(path: Path)
    ensures Without([path], path) == []
  {
    assert [path][..0] == [];
  }

  lemma WithoutSecond(target: Path, kept: string, dropped: string)
    requires kept != dropped
    ensures Without([target + [kept]] + [target + [dropped]], target + [dropped]) == [target + [kept]]
  {
    var p, q := target + [kept], target + [dropped];
    SiblingsApart(target, Some(kept), dropped);
    assert ([p] + [q])[..1] == [p] && [p][..0] == [];
    assert Without([p], q) == Without([], q) + [p];
  }

  /** Renaming the finished file is putting it into the starting tree. */
  lemma RenamedIntoPlace(before: Tree, to: Path, temp: Path, start: Tree)
    requires Reverts(before, [temp], [], start, start)
    requires Disjoint(temp, to) && Lookup(before, temp).Some? && Lookup(before, to).None?
    requires Placeable(before, temp) && Placeable(before, to)
    ensures var after := Two(before, to, Lookup(before, temp), temp, None);
            && Placeable(start, to) && Lookup(start, to).None? && Lookup(after, to).Some?
            && after == Put(start, to, Lookup(after, to))
  {
    ClearedOne(before, temp);
    assert start == Put(before, temp, None);
    PutThenOther(before, temp, None, to, Lookup(before, temp));
    TwoThen(before, to, Lookup(before, temp), temp, None, None);
  }

  lemma FreeName(taken: set<string>, name: string)
    requires name !in taken
    ensures FirstFree(taken, name) == Some(name)
  {
  }

  lemma TargetIsNotRoot(tree: Tree, path: Path)
    requires Placeable(tree, path)
    ensures path != []
  {
  }
}
