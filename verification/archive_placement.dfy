/** Where staged entries land: numbered names, keep-both placement, and one step of a commit. */
module ArchivePlacement {
  import opened Wrappers
  import opened RemoteTree
  import NumberText
  import Numerals

  /** The most a name is numbered; nothing is tried from here on. */
  const LAST_ATTEMPT := 10000

  function Numbered(name: string, attempt: nat): (candidate: string) {
    name + " (" + NumberText.Print(attempt, NumberText.Decimal) + ")"
  }

  /** The numbered name is the name, a space, and the number in base ten between parentheses. */
  lemma NumberedIs(name: string, attempt: nat) returns (digits: string)
    ensures Numbered(name, attempt) == name + " (" + digits + ")" && Numerals.IsDecimal(digits, attempt)
  {
    digits := NumberText.Print(attempt, NumberText.Decimal);
    Numerals.PrintIsDecimal(attempt);
  }

  function FreeFrom(taken: set<string>, name: string, attempt: nat): (found: Option<string>)
    ensures found.Some? ==> found.value !in taken
    decreases LAST_ATTEMPT - attempt
  {
    if attempt >= LAST_ATTEMPT then None
    else if Numbered(name, attempt) !in taken then Some(Numbered(name, attempt))
    else FreeFrom(taken, name, attempt + 1)
  }

  /** The name itself when free, else the first free numbered name. */
  function FirstFree(taken: set<string>, name: string): (found: Option<string>)
    ensures found.Some? ==> found.value !in taken
  {
    if name !in taken then Some(name) else FreeFrom(taken, name, 2)
  }

  /** The numbered name chosen is the least one that is free; there is none only when all are taken. */
  lemma {:induction false} FreeFromIsLeast(taken: set<string>, name: string, attempt: nat)
    requires attempt <= 10000
    ensures FreeFrom(taken, name, attempt).None? <==>
              forall k :: attempt <= k < 10000 ==> Numbered(name, k) in taken
    ensures FreeFrom(taken, name, attempt).Some? ==>
              exists k :: attempt <= k < 10000 && FreeFrom(taken, name, attempt).value == Numbered(name, k)
                          && forall j :: attempt <= j < k ==> Numbered(name, j) in taken
    decreases LAST_ATTEMPT - attempt
  {
    hide Numbered;
    if attempt < LAST_ATTEMPT {
      FreeFromIsLeast(taken, name, attempt + 1);
      assert FreeFrom(taken, name, attempt).Some? && Numbered(name, attempt) !in taken ==>
          FreeFrom(taken, name, attempt).value == Numbered(name, attempt);
    }
  }

  /** The name itself when it is free, else the name with the least free number from 2 to 9999. */
  lemma FirstFreeIsLeast(taken: set<string>, name: string)
    ensures name !in taken ==> FirstFree(taken, name) == Some(name)
    ensures name in taken ==>
              && (FirstFree(taken, name).None? <==> forall k :: 2 <= k < 10000 ==> Numbered(name, k) in taken)
              && (FirstFree(taken, name).Some? ==>
                    exists k :: 2 <= k < 10000 && FirstFree(taken, name) == Some(Numbered(name, k))
                                && forall j :: 2 <= j < k ==> Numbered(name, j) in taken)
  {
    hide FreeFrom, Numbered;
    FreeFromIsLeast(taken, name, 2);
  }

  datatype Placement = Placement(dir: map<string, Tree>, places: seq<string>)

  /** Staged entries placed one after the other, each under the first name free at its turn. */
  function KeepBoth(dir: map<string, Tree>, staged: map<string, Tree>, names: seq<string>): (result: Option<Placement>)
    requires forall i :: 0 <= i < |names| ==> names[i] in staged
    decreases |names|
  {
    if names == [] then Some(Placement(dir, []))
    else
      var place := FirstFree(dir.Keys, names[0]);
      if place.None? then None
      else
        var rest := KeepBoth(dir[place.value := staged[names[0]]], staged, names[1..]);
        if rest.None? then None else Some(Placement(rest.value.dir, [place.value] + rest.value.places))
  }

  predicate Distinct(names: seq<string>) {
    forall i, j :: 0 <= i < j < |names| ==> names[i] != names[j]
  }

  /**
   * Every entry that was there is unchanged, every staged entry stands unchanged at a place of its
   * own that was free before, and nothing else appeared.
   */
  predicate Conserved(dir: map<string, Tree>, staged: map<string, Tree>, names: seq<string>, after: map<string, Tree>,
                      places: seq<string>)
    requires forall i :: 0 <= i < |names| ==> names[i] in staged
  {
    && |places| == |names| && Distinct(places)
    && (forall i :: 0 <= i < |places| ==> places[i] !in dir)
    && (forall n :: n in dir ==> n in after && after[n] == dir[n])
    && (forall i :: 0 <= i < |places| ==> places[i] in after && after[places[i]] == staged[names[i]])
    && (forall n :: n in after ==> n in dir || n in places)
  }

  lemma ConservedStep(dir: map<string, Tree>, staged: map<string, Tree>, names: seq<string>, place: string,
                      after: map<string, Tree>, places: seq<string>)
    requires names != [] && forall i :: 0 <= i < |names| ==> names[i] in staged
    requires place !in dir && Conserved(dir[place := staged[names[0]]], staged, names[1..], after, places)
    ensures Conserved(dir, staged, names, after, [place] + places)
  {
    var all := [place] + places;
    assert forall i :: 0 < i < |names| ==> names[i] == names[1..][i - 1] && all[i] == places[i - 1];
    assert forall i :: 0 <= i < |places| ==> places[i] != place;
    assert forall n :: n in places ==> n in all;
    assert place in all;
  }

  /**
   * Keeping both loses nothing, however the names relate: also when a numbered name equals the name
   * of another staged entry.
   */
  lemma {:induction false} KeepBothConserves(dir: map<string, Tree>, staged: map<string, Tree>, names: seq<string>)
    requires forall i :: 0 <= i < |names| ==> names[i] in staged
    requires KeepBoth(dir, staged, names).Some?
    ensures var kept := KeepBoth(dir, staged, names).value; Conserved(dir, staged, names, kept.dir, kept.places)
    decreases |names|
  {
    if names != [] {
      hide Conserved, FirstFree;
      var place := FirstFree(dir.Keys, names[0]).value;
      var next := dir[place := staged[names[0]]];
      KeepBothConserves(next, staged, names[1..]);
      var rest := KeepBoth(next, staged, names[1..]).value;
      ConservedStep(dir, staged, names, place, rest.dir, rest.places);
    }
  }

  /** A staged entry whose name is free at its turn keeps its name. */
  lemma FreeNamesAreKept(dir: map<string, Tree>, staged: map<string, Tree>, names: seq<string>)
    requires forall i :: 0 <= i < |names| ==> names[i] in staged
    requires Distinct(names) && forall i :: 0 <= i < |names| ==> names[i] !in dir
    ensures KeepBoth(dir, staged, names).Some? && KeepBoth(dir, staged, names).value.places == names
    decreases |names|
  {
    if names != [] {
      FreeNamesAreKept(dir[names[0] := staged[names[0]]], staged, names[1..]);
    }
  }

  /** Placing the names one by one composes: the places so far, then those of the rest. */
  lemma {:induction false} KeepBothStep(dir: map<string, Tree>, staged: map<string, Tree>, names: seq<string>, k: nat,
                                        d: map<string, Tree>, places: seq<string>, place: string)
    requires k < |names| && forall i :: 0 <= i < |names| ==> names[i] in staged
    requires KeepBoth(dir, staged, names[..k]) == Some(Placement(d, places))
    requires FirstFree(d.Keys, names[k]) == Some(place)
    ensures KeepBoth(dir, staged, names[..k + 1]) == Some(Placement(d[place := staged[names[k]]], places + [place]))
    decreases k
  {
    if k == 0 {
      assert names[..0] == [] && names[..1] == [names[0]] && names[..1][1..] == [];
      var after := dir[place := staged[names[0]]];
      assert KeepBoth(after, staged, []) == Some(Placement(after, []));
      assert [] + [place] == [place] + [];
    } else {
      var first := FirstFree(dir.Keys, names[0]).value;
      var next := dir[first := staged[names[0]]];
      assert names[..k][1..] == names[1..][..k - 1] && names[..k + 1][1..] == names[1..][..k];
      var rest := KeepBoth(next, staged, names[1..][..k - 1]).value;
      KeepBothStep(next, staged, names[1..], k - 1, d, rest.places, place);
      assert places + [place] == [first] + (rest.places + [place]);
    }
  }

  /** When all names can be placed, the next one can, whatever was placed before it. */
  lemma {:induction false} KeepBothGoesOn(dir: map<string, Tree>, staged: map<string, Tree>, names: seq<string>, k: nat)
    requires k < |names| && forall i :: 0 <= i < |names| ==> names[i] in staged
    requires KeepBoth(dir, staged, names).Some?
    ensures KeepBoth(dir, staged, names[..k]).Some?
    ensures FirstFree(KeepBoth(dir, staged, names[..k]).value.dir.Keys, names[k]).Some?
    decreases k
  {
    hide FirstFree;
    if k == 0 {
      assert names[..0] == [];
    } else {
      var next := dir[FirstFree(dir.Keys, names[0]).value := staged[names[0]]];
      assert names[..k][1..] == names[1..][..k - 1];
      KeepBothGoesOn(next, staged, names[1..], k - 1);
    }
  }

  // ---------------------------------------------------------------------------------------------
  // What a commit amounts to

  datatype Mode = Smart | Current | ArchiveNameDirectory

  datatype Resolution = Overwrite | KeepBothEntries | Cancel

  predicate AnyTaken(names: seq<string>, dir: map<string, Tree>) {
    exists i :: 0 <= i < |names| && names[i] in dir
  }

  /** The listed names already present in the target directory. */
  function TakenNames(names: seq<string>, dir: map<string, Tree>): (taken: seq<string>)
    ensures taken != [] <==> AnyTaken(names, dir)
  {
    if names == [] then []
    else
      var before, last := TakenNames(names[..|names| - 1], dir), names[|names| - 1];
      assert AnyTaken(names[..|names| - 1], dir) ==> AnyTaken(names, dir);
      if last in dir then before + [last] else before
  }

  /** The staging directory itself becomes the result. */
  predicate MovesWhole(mode: Mode, answer: Resolution, archiveName: string, dir: map<string, Tree>, names: seq<string>)
  {
    || (mode.Smart? && |names| != 1)
    || (mode.ArchiveNameDirectory? && (archiveName !in dir || answer.KeepBothEntries?))
  }

  /** The commit stops to ask before it changes anything. */
  predicate Asks(mode: Mode, archiveName: string, dir: map<string, Tree>, names: seq<string>) {
    if mode.Smart? && |names| != 1 then false
    else if mode.ArchiveNameDirectory? then archiveName in dir
    else AnyTaken(names, dir)
  }

  /** The names a commit has to find are there to be found, and it is not cancelled at the prompt. */
  ghost predicate CanSubmit(mode: Mode, answer: Resolution, archiveName: string, dir: map<string, Tree>,
                            staging: string, names: seq<string>)
  {
    && staging in dir && dir[staging].Dir? && Lists(names, dir[staging].children)
    && !(answer.Cancel? && Asks(mode, archiveName, dir, names))
    && (MovesWhole(mode, answer, archiveName, dir, names) ==> FirstFree(dir.Keys, archiveName).Some?)
    && (answer.KeepBothEntries? && AnyTaken(names, dir) && !MovesWhole(mode, answer, archiveName, dir, names) ==>
          KeepBoth(dir, dir[staging].children, names).Some?)
  }

  ghost predicate Lists(names: seq<string>, entries: map<string, Tree>) {
    Distinct(names) && forall n :: n in names <==> n in entries
  }

  /**
   * The target directory `dir`, holding the staging directory, after a completed commit, and the names
   * of the results, given the order in which the host listed the staged names.
   */
  ghost predicate Submitted(mode: Mode, answer: Resolution, archiveName: string, dir: map<string, Tree>,
                            staging: string, names: seq<string>, after: map<string, Tree>, places: seq<string>)
  {
    && staging in dir && dir[staging].Dir? && Lists(names, dir[staging].children)
    && var outside := dir - {staging};
    if MovesWhole(mode, answer, archiveName, dir, names) then
      && |places| == 1 && FirstFree(dir.Keys, archiveName) == Some(places[0])
      && after == outside[places[0] := dir[staging]]
    else if mode.ArchiveNameDirectory? then
      archiveName in dir && places == [archiveName]
      && after == outside[archiveName := Overlay(dir[archiveName], dir[staging])]
    else if answer.KeepBothEntries? && AnyTaken(names, dir) then
      var kept := KeepBoth(dir, dir[staging].children, names);
      kept.Some? && places == kept.value.places && after == kept.value.dir - {staging}
    else
      places == names && Dir(after) == Overlay(Dir(outside), dir[staging])
  }

  /**
   * Smart extraction and extraction into a named directory never scatter: whatever the archive holds, there
   * is one result. Extraction in place has one for each staged entry.
   */
  lemma OneResult(mode: Mode, answer: Resolution, archiveName: string, dir: map<string, Tree>, staging: string,
                  names: seq<string>, after: map<string, Tree>, places: seq<string>)
    requires Submitted(mode, answer, archiveName, dir, staging, names, after, places)
    requires staging !in dir[staging].children
    ensures |places| == (if mode.Current? then |names| else 1)
    ensures forall n :: n in after ==> n in dir || n in places
  {
    hide FirstFree;
    var staged := dir[staging].children;
    if !MovesWhole(mode, answer, archiveName, dir, names) && !mode.ArchiveNameDirectory? {
      assert forall i :: 0 <= i < |names| ==> names[i] in names;
      if answer.KeepBothEntries? && AnyTaken(names, dir) {
        KeepBothConserves(dir, staged, names);
      } else {
        forall n | n in after
          ensures n in dir || n in places
        {
          OverlayPointwise(dir - {staging}, staged, n);
        }
      }
    }
  }

  /** With keep-both as the answer, no commit changes or hides an entry that was there, and each result is new. */
  lemma KeepBothLosesNothing(mode: Mode, archiveName: string, dir: map<string, Tree>, staging: string,
                             names: seq<string>, after: map<string, Tree>, places: seq<string>)
    requires Submitted(mode, KeepBothEntries, archiveName, dir, staging, names, after, places)
    requires staging !in dir[staging].children
    ensures forall n :: n in dir && n != staging ==> n in after && after[n] == dir[n]
    ensures Distinct(places) && forall i :: 0 <= i < |places| ==> places[i] in after && places[i] !in dir
    ensures if MovesWhole(mode, KeepBothEntries, archiveName, dir, names) then after[places[0]] == dir[staging]
            else |places| == |names|
                 && forall i :: 0 <= i < |names| ==> after[places[i]] == dir[staging].children[names[i]]
    ensures forall n :: n in after ==> n in dir || n in places
  {
    hide FirstFree;
    var staged := dir[staging].children;
    if MovesWhole(mode, KeepBothEntries, archiveName, dir, names) {
      FreeIsNew(dir.Keys, archiveName);
      assert places[0] in places;
    } else if AnyTaken(names, dir) {
      KeepBothConserves(dir, staged, names);
    } else {
      forall n
        ensures Entry(after, n) == OverlayEntries(Entry(dir - {staging}, n), Entry(staged, n))
      {
        OverlayPointwise(dir - {staging}, staged, n);
      }
      UnionOfApart(dir - {staging}, staged, after);
      assert forall i :: 0 <= i < |names| ==> names[i] in staged;
    }
  }

  lemma FreeIsNew(taken: set<string>, name: string)
    ensures FirstFree(taken, name).Some? ==> FirstFree(taken, name).value !in taken
  {
  }

  lemma UnionOfApart(dir: map<string, Tree>, staged: map<string, Tree>, after: map<string, Tree>)
    requires dir.Keys !! staged.Keys
    requires forall n :: Entry(after, n) == OverlayEntries(Entry(dir, n), Entry(staged, n))
    ensures after == dir + staged
  {
    forall n
      ensures Entry(after, n) == Entry(dir + staged, n)
    {
    }
    SameEntries(after, dir + staged);
  }

  // ---------------------------------------------------------------------------------------------
  // One step of a commit

  /** The target directory after one staged name changed to `b` in staging and `place` to `a` beside it. */
  function Stepped(dir: map<string, Tree>, staging: string, staged: map<string, Tree>, place: string, a: Option<Tree>,
                   name: string, b: Option<Tree>): (after: map<string, Tree>)
  {
    WithEntry(dir, place, a)[staging := Dir(WithEntry(staged, name, b))]
  }

  lemma StagedEntryApart(target: Path, staging: string, place: string, name: string)
    requires place != staging
    ensures Disjoint(target + [place], target + [staging] + [name])
  {
    var p, q := target + [place], target + [staging] + [name];
    assert p[|target|] == place && q[|target|] == staging;
  }

  /** Replacing two entries of one directory, seen at that directory. */
  lemma SiblingStep(start: Tree, target: Path, dir: map<string, Tree>, p: string, a: Option<Tree>, q: string,
                    b: Option<Tree>)
    requires Placeable(start, target) && p != q
    ensures var tree := Put(start, target, Some(Dir(dir)));
            && Disjoint(target + [p], target + [q]) && Placeable(tree, target + [p]) && Placeable(tree, target + [q])
            && Lookup(tree, target + [p]) == Entry(dir, p) && Lookup(tree, target + [q]) == Entry(dir, q)
            && Two(tree, target + [p], a, target + [q], b)
               == Put(start, target, Some(Dir(WithEntry(WithEntry(dir, p, a), q, b))))
  {
    assert (target + [p])[|target|] == p && (target + [q])[|target|] == q;
    hide Put, Lookup, Placeable;
    PutWithin(start, target, dir, p, a);
    PutWithin(start, target, dir, q, b);
    PutWithin(start, target, WithEntry(dir, p, a), q, b);
  }

  /** Replacing a staged entry and an entry beside the staging directory, seen at the target directory. */
  lemma CommitStep(start: Tree, target: Path, dir: map<string, Tree>, staging: string, staged: map<string, Tree>,
                   place: string, a: Option<Tree>, name: string, b: Option<Tree>)
    requires Placeable(start, target) && place != staging && staging in dir && dir[staging] == Dir(staged)
    ensures var p, q := target + [place], target + [staging] + [name];
            var tree := Put(start, target, Some(Dir(dir)));
            && Disjoint(p, q) && Placeable(tree, p) && Placeable(tree, q)
            && Lookup(tree, p) == Entry(dir, place) && Lookup(tree, q) == Entry(staged, name)
            && Two(tree, p, a, q, b) == Put(start, target, Some(Dir(Stepped(dir, staging, staged, place, a, name, b))))
  {
    hide Put, Lookup, Placeable;
    var p, q := target + [place], target + [staging] + [name];
    var tree := Put(start, target, Some(Dir(dir)));
    StagedEntryApart(target, staging, place, name);
    PutWithin(start, target, dir, place, a);
    PutWithin(start, target, dir, staging, None);
    PutBelow(tree, target + [staging], staged, name, b);
    var half := WithEntry(dir, place, a);
    PutWithin(start, target, half, staging, Some(Dir(WithEntry(staged, name, b))));
    PutBelow(Put(tree, p, a), target + [staging], staged, name, b);
  }
}
