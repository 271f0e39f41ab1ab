/** The destination an archive's own name leads to, and when it lies inside the target directory. */
module ArchiveNames {
  import opened Wrappers
  import opened PathText
  import opened RemoteTree
  import opened ArchivePlacement
  import opened ArchiveCommands

  function Lower(name: string): (lower: string)
    ensures |lower| == |name|
  {
    seq(|name|, i requires 0 <= i < |name| => if 'A' <= name[i] <= 'Z' then (name[i] as int + 32) as char else name[i])
  }

  predicate EndsWith(text: string, suffix: string) {
    |suffix| <= |text| && text[|text| - |suffix|..] == suffix
  }

  /** The format an archive's name announces, compound extensions first. */
  function DetectFormat(name: string): (format: Option<Format>) {
    var lower := Lower(name);
    if EndsWith(lower, ".tar.gz") || EndsWith(lower, ".tgz") then Some(TarGzip)
    else if EndsWith(lower, ".tar.xz") || EndsWith(lower, ".txz") then Some(TarXz)
    else if EndsWith(lower, ".tar.bz2") || EndsWith(lower, ".tbz2") then Some(TarBzip2)
    else if EndsWith(lower, ".tar") then Some(Tar)
    else if EndsWith(lower, ".zip") then Some(Zip)
    else if EndsWith(lower, ".7z") then Some(SevenZip)
    else None
  }

  function Suffixes(format: Format): (suffixes: seq<string>) {
    match format
    case TarGzip => [".tar.gz", ".tgz"]
    case TarXz => [".tar.xz", ".txz"]
    case TarBzip2 => [".tar.bz2", ".tbz2"]
    case Tar => [".tar"]
    case Zip => [".zip"]
    case SevenZip => [".7z"]
  }

  function FirstEnding(lower: string, suffixes: seq<string>): (suffix: string)
    ensures EndsWith(lower, suffix)
  {
    if suffixes == [] then ""
    else if EndsWith(lower, suffixes[0]) then suffixes[0]
    else FirstEnding(lower, suffixes[1..])
  }

  /** The extension that announces the format. */
  function Extension(name: string): (suffix: string)
    ensures EndsWith(Lower(name), suffix)
  {
    match DetectFormat(name) case Some(format) => FirstEnding(Lower(name), Suffixes(format)) case None => ""
  }

  /** The name without its extension; `archive` when nothing else is left of it. */
  function StripExtension(name: string): (stripped: string) {
    var rest := name[..|name| - |Extension(name)|];
    if rest == "" && Extension(name) != "" then "archive" else rest
  }

  function DirName(path: Path): (parent: Path) {
    if path == [] then [] else path[..|path| - 1]
  }

  function BaseName(path: Path): (name: string) {
    if path == [] then "" else path[|path| - 1]
  }

  /** A directory path joined with a name, `.` and `..` resolved. */
  function Joined(directory: Path, name: string): (path: Path) {
    if name == "" || name == "." then directory else if name == ".." then DirName(directory) else directory + [name]
  }

  /** The sibling of a path under a numbered name. */
  function NumberedPath(path: Path, attempt: nat): (candidate: Path) {
    DirName(path) + [Numbered(BaseName(path), attempt)]
  }

  function FreePathFrom(tree: Tree, path: Path, attempt: nat): (found: Option<Path>)
    decreases LAST_ATTEMPT - attempt
  {
    if attempt >= LAST_ATTEMPT then None
    else if Lookup(tree, NumberedPath(path, attempt)).None? then Some(NumberedPath(path, attempt))
    else FreePathFrom(tree, path, attempt + 1)
  }

  /** The path itself when nothing stands there, else the first free numbered sibling. */
  function FirstFreePath(tree: Tree, path: Path): (found: Option<Path>) {
    if Lookup(tree, path).None? then Some(path) else FreePathFrom(tree, path, 2)
  }

  lemma {:induction false} FreeFromInside(tree: Tree, directory: Path, children: map<string, Tree>, name: string,
                                          attempt: nat)
    requires directory != [] && Lookup(tree, directory) == Some(Dir(children))
    ensures FreePathFrom(tree, directory + [name], attempt)
            == match FreeFrom(children.Keys, name, attempt) case None => None case Some(n) => Some(directory + [n])
    decreases LAST_ATTEMPT - attempt
  {
    hide Lookup, Numbered, Put, Placeable;
    if attempt < LAST_ATTEMPT {
      PutBelow(tree, directory, children, Numbered(name, attempt), None);
      FreeFromInside(tree, directory, children, name, attempt + 1);
    }
  }

  /** For a child of a directory the first free path is the first free name in it. */
  lemma FirstFreeInside(tree: Tree, directory: Path, children: map<string, Tree>, name: string)
    requires directory != [] && Lookup(tree, directory) == Some(Dir(children))
    ensures FirstFreePath(tree, directory + [name])
            == match FirstFree(children.Keys, name) case None => None case Some(n) => Some(directory + [n])
  {
    hide FreePathFrom, FreeFrom, Put, Placeable;
    PutBelow(tree, directory, children, name, None);
    FreeFromInside(tree, directory, children, name, 2);
  }

  // ---------------------------------------------------------------------------------------------
  // Inside and outside

  /** Strictly below the target directory. */
  predicate Inside(path: Path, target: Path) {
    target <= path && path != target
  }

  /** Where a commit named after the archive may put the staged directory: the joined path or a numbered sibling. */
  ghost predicate MayLandAt(target: Path, archiveName: string, path: Path) {
    path == Joined(target, archiveName)
    || exists k :: 2 <= k < LAST_ATTEMPT && path == NumberedPath(Joined(target, archiveName), k)
  }

  lemma {:induction false} FreePathIsNumbered(tree: Tree, path: Path, attempt: nat)
    requires attempt <= LAST_ATTEMPT && FreePathFrom(tree, path, attempt).Some?
    ensures exists k :: attempt <= k < LAST_ATTEMPT && FreePathFrom(tree, path, attempt) == Some(NumberedPath(path, k))
    decreases LAST_ATTEMPT - attempt
  {
    hide Lookup, NumberedPath;
    if Lookup(tree, NumberedPath(path, attempt)).Some? {
      FreePathIsNumbered(tree, path, attempt + 1);
    }
  }

  lemma LandsWhereItMay(tree: Tree, target: Path, archiveName: string)
    requires FirstFreePath(tree, Joined(target, archiveName)).Some?
    ensures MayLandAt(target, archiveName, FirstFreePath(tree, Joined(target, archiveName)).value)
  {
    hide Joined, NumberedPath, FreePathFrom;
    if Lookup(tree, Joined(target, archiveName)).Some? {
      FreePathIsNumbered(tree, Joined(target, archiveName), 2);
    }
  }

  /**
   * The exact condition, on the archive's base name alone: every place to which a commit named after the
   * archive may rename the staged directory lies inside the target directory if and only if the name
   * without its extension is neither `.` nor `..`. Otherwise no such place lies inside. A merge onto the
   * named directory stays inside if and only if the name is not `..`.
   */
  lemma StaysInsideIff(target: Path, baseName: string)
    requires target != [] && baseName != ""
    ensures var name := StripExtension(baseName);
            && ((forall path :: MayLandAt(target, name, path) ==> Inside(path, target))
                <==> name != "." && name != "..")
            && (name == "." || name == ".." ==> forall path :: MayLandAt(target, name, path) ==> !Inside(path, target))
            && (target <= Joined(target, name) <==> name != "..")
  {
    var name := StripExtension(baseName);
    assert name != "";
    hide StripExtension, Numbered;
    assert MayLandAt(target, name, Joined(target, name));
    if name != "." && name != ".." {
      forall path | MayLandAt(target, name, path)
        ensures Inside(path, target)
      {
        assert DirName(target + [name]) == target;
      }
    } else {
      assert |DirName(Joined(target, name))| < |target|;
    }
  }

  lemma {:induction false} PrefixExists(tree: Tree, path: Path, part: Path)
    requires part <= path && Lookup(tree, path).Some?
    ensures Lookup(tree, part).Some?
    decreases |part|
  {
    if part != [] {
      assert part[1..] <= path[1..];
      PrefixExists(tree.children[path[0]], path[1..], part[1..]);
    }
  }

  /** A free place no deeper than an existing directory is apart from it. */
  lemma FreeIsApart(tree: Tree, target: Path, path: Path)
    requires Lookup(tree, target).Some? && Lookup(tree, path).None? && |path| <= |target|
    ensures Disjoint(path, target)
  {
    if path <= target {
      PrefixExists(tree, target, path);
    }
    assert target <= path ==> target == path;
  }

  /** Where the first free path is: the target directory itself and the directories above it are taken. */
  lemma FirstFreeIsInsideIff(tree: Tree, target: Path, name: string)
    requires target != [] && name != "" && Lookup(tree, target).Some?
    requires FirstFreePath(tree, Joined(target, name)).Some?
    ensures var path := FirstFreePath(tree, Joined(target, name)).value;
            && Lookup(tree, path).None?
            && (name != "." && name != ".." ==> target <= path)
            && (name == "." || name == ".." ==> Disjoint(path, target))
  {
    hide Lookup, Numbered;
    var joined := Joined(target, name);
    FirstFreeIsFree(tree, joined);
    var path := FirstFreePath(tree, joined).value;
    LandsWhereItMay(tree, target, name);
    if name == "." || name == ".." {
      assert |joined| <= |target| && |DirName(joined)| < |target|;
      FreeIsApart(tree, target, path);
    } else {
      assert DirName(target + [name]) == target;
    }
  }

  lemma {:induction false} FreeFromIsFree(tree: Tree, path: Path, attempt: nat)
    requires FreePathFrom(tree, path, attempt).Some?
    ensures Lookup(tree, FreePathFrom(tree, path, attempt).value).None?
    decreases LAST_ATTEMPT - attempt
  {
    hide Lookup, NumberedPath;
    if Lookup(tree, NumberedPath(path, attempt)).Some? {
      FreeFromIsFree(tree, path, attempt + 1);
    }
  }

  lemma FirstFreeIsFree(tree: Tree, path: Path)
    requires FirstFreePath(tree, path).Some?
    ensures Lookup(tree, FirstFreePath(tree, path).value).None?
  {
    if Lookup(tree, path).Some? {
      FreeFromIsFree(tree, path, 2);
    }
  }

  /** The tree after the staging directory was renamed to a path. */
  ghost predicate RenamedTo(before: Tree, after: Tree, from: Path, path: Path) {
    && Disjoint(path, from) && Placeable(before, path) && Placeable(before, from) && Lookup(before, from).Some?
    && after == Two(before, path, Lookup(before, from), from, None)
  }

  /** Only the target directory differs. */
  ghost predicate OnlyTargetChanged(before: Tree, after: Tree, target: Path) {
    Placeable(before, target) && after == Put(before, target, Lookup(after, target))
  }

  /**
   * For every state of the host: renaming the staging directory to the first free path for the archive's
   * name changes nothing but the target directory if and only if the name is neither `.` nor `..`.
   */
  lemma RenameIsConfinedIff(before: Tree, after: Tree, target: Path, staging: string, name: string)
    requires IsName(name) || name == "." || name == ".."
    requires target != [] && Lookup(before, target).Some? && Lookup(before, target).value.Dir?
    requires FirstFreePath(before, Joined(target, name)).Some?
    requires RenamedTo(before, after, target + [staging], FirstFreePath(before, Joined(target, name)).value)
    ensures OnlyTargetChanged(before, after, target) <==> name != "." && name != ".."
  {
    hide Lookup, Put, Placeable, FirstFreePath, Joined;
    var path := FirstFreePath(before, Joined(target, name)).value;
    var dir := Lookup(before, target).value.children;
    FirstFreeIsInsideIff(before, target, name);
    TwoThen(before, path, Lookup(before, target + [staging]), target + [staging], None, None);
    FoundIsPlaceable(before, target);
    if name == "." || name == ".." {
      PutUnseen(before, target, Lookup(after, target), path);
    } else {
      RenamedInside(before, after, target, dir, staging, name);
    }
  }

  /** Renamed to a child of the target directory, seen at the target directory. */
  lemma RenamedInside(before: Tree, after: Tree, target: Path, dir: map<string, Tree>, staging: string, name: string)
    requires target != [] && IsName(name) && Lookup(before, target) == Some(Dir(dir))
    requires FirstFreePath(before, Joined(target, name)).Some?
    requires RenamedTo(before, after, target + [staging], FirstFreePath(before, Joined(target, name)).value)
    ensures staging in dir && FirstFree(dir.Keys, name).Some?
    ensures var place := FirstFree(dir.Keys, name).value;
            && FirstFreePath(before, Joined(target, name)) == Some(target + [place]) && place != staging
            && Placeable(before, target)
            && after == Put(before, target, Some(Dir((dir - {staging})[place := dir[staging]])))
            && Lookup(after, target) == Some(Dir((dir - {staging})[place := dir[staging]]))
  {
    hide Lookup, Put, Placeable, Two, FirstFree, FirstFreePath;
    FirstFreeInside(before, target, dir, name);
    var place := FirstFree(dir.Keys, name).value;
    PutBelow(before, target, dir, staging, None);
    FoundIsPlaceable(before, target);
    PutFound(before, target);
    assert place != staging;
    SiblingStep(before, target, dir, place, Some(dir[staging]), staging, None);
    var moved := (dir - {staging})[place := dir[staging]];
    assert WithEntry(WithEntry(dir, place, Some(dir[staging])), staging, None) == moved;
    PutThenSame(before, target, Some(Dir(moved)), None);
  }

  /** Beside the staging directory the first free place is one the host can rename to. */
  lemma FreePlaceIsUsable(tree: Tree, target: Path, dir: map<string, Tree>, staging: string, name: string)
    requires target != [] && IsName(name) && Lookup(tree, target) == Some(Dir(dir)) && staging in dir
    requires FirstFree(dir.Keys, name).Some?
    ensures var place := FirstFree(dir.Keys, name).value;
            && FirstFreePath(tree, Joined(target, name)) == Some(target + [place])
            && Disjoint(target + [staging], target + [place]) && Placeable(tree, target + [place])
            && Lookup(tree, target + [place]).None? && Lookup(tree, target + [staging]) == Some(dir[staging])
  {
    hide Lookup, Put, Placeable, FirstFree, FirstFreePath;
    FirstFreeInside(tree, target, dir, name);
    var place := FirstFree(dir.Keys, name).value;
    FreeIsNew(dir.Keys, name);
    PutBelow(tree, target, dir, staging, None);
    PutBelow(tree, target, dir, place, None);
    assert (target + [staging])[|target|] == staging && (target + [place])[|target|] == place;
  }

  /** A base name without a slash strips to an ordinary name, `.` or `..`. */
  lemma StrippedIsOrdinary(baseName: string)
    requires baseName != "" && '/' !in baseName
    ensures IsName(StripExtension(baseName)) <==> StripExtension(baseName) != "." && StripExtension(baseName) != ".."
  {
    assert '/' !in "archive";
  }

  const EXTENSIONS := [".tar.gz", ".tgz", ".tar.xz", ".txz", ".tar.bz2", ".tbz2", ".tar", ".zip", ".7z"]

  lemma EndsWithAt(text: string, suffix: string, i: nat)
    requires i < |suffix|
    ensures EndsWith(text, suffix) ==> i < |text| && text[|text| - 1 - i] == suffix[|suffix| - 1 - i]
  {
    if EndsWith(text, suffix) {
      assert text[|text| - |suffix|..][|suffix| - 1 - i] == suffix[|suffix| - 1 - i];
    }
  }

  /** No extension ends in another: two differ within the last four characters. */
  lemma ExtensionsDiffer(p: string, q: string) returns (i: nat)
    requires p in EXTENSIONS && q in EXTENSIONS && p != q
    ensures i < |p| && i < |q| && p[|p| - 1 - i] != q[|q| - 1 - i]
  {
    i := if p[|p| - 1] != q[|q| - 1] then 0
         else if p[|p| - 2] != q[|q| - 2] then 1 else if p[|p| - 3] != q[|q| - 3] then 2 else 3;
  }

  lemma OneExtension(text: string, p: string, q: string)
    requires p in EXTENSIONS && q in EXTENSIONS && p != q && EndsWith(text, p)
    ensures !EndsWith(text, q)
  {
    var i := ExtensionsDiffer(p, q);
    EndsWithAt(text, p, i);
    EndsWithAt(text, q, i);
  }

  lemma FirstEndingIs(lower: string, suffixes: seq<string>, suffix: string)
    requires suffix in suffixes && EndsWith(lower, suffix)
    requires forall other :: other in suffixes && other != suffix ==> !EndsWith(lower, other)
    ensures FirstEnding(lower, suffixes) == suffix
  {
    hide EndsWith;
    if suffixes[0] != suffix {
      FirstEndingIs(lower, suffixes[1..], suffix);
    }
  }

  lemma SuffixesAreExtensions(format: Format)
    ensures forall suffix :: suffix in Suffixes(format) ==> suffix in EXTENSIONS && Lower(suffix) == suffix
  {
  }

  lemma FormatOf(name: string, format: Format, suffix: string)
    requires suffix in Suffixes(format) && EndsWith(Lower(name), suffix)
    requires forall other :: other in EXTENSIONS && other != suffix ==> !EndsWith(Lower(name), other)
    ensures DetectFormat(name) == Some(format)
  {
    hide EndsWith, Lower;
    assert forall i :: 0 <= i < |EXTENSIONS| ==> EXTENSIONS[i] in EXTENSIONS;
  }

  /** Each extension announces its format, whatever stands before it. */
  lemma ExtensionIsDetected(name: string, format: Format, suffix: string)
    requires suffix in Suffixes(format) && EndsWith(Lower(name), suffix)
    ensures DetectFormat(name) == Some(format) && Extension(name) == suffix
  {
    hide EndsWith, Lower, Suffixes, DetectFormat, EXTENSIONS;
    SuffixesAreExtensions(format);
    forall other | other in EXTENSIONS && other != suffix
      ensures !EndsWith(Lower(name), other)
    {
      OneExtension(Lower(name), suffix, other);
    }
    FormatOf(name, format, suffix);
    FirstEndingIs(Lower(name), Suffixes(format), suffix);
  }

  lemma EndsInSuffix(stem: string, suffix: string)
    requires Lower(suffix) == suffix
    ensures EndsWith(Lower(stem + suffix), suffix) && (stem + suffix)[..|stem|] == stem
  {
    assert Lower(stem + suffix)[|stem|..] == Lower(suffix);
  }

  /** Stripping takes exactly the extension away, and an archive called like an extension is called `archive`. */
  lemma StripsItsExtension(stem: string, format: Format, suffix: string)
    requires suffix in Suffixes(format)
    ensures DetectFormat(stem + suffix) == Some(format)
    ensures StripExtension(stem + suffix) == if stem == "" then "archive" else stem
  {
    hide EndsWith, Lower, Suffixes, DetectFormat, Extension;
    SuffixesAreExtensions(format);
    EndsInSuffix(stem, suffix);
    ExtensionIsDetected(stem + suffix, format, suffix);
    NotEmpty(format);
  }

  lemma NotEmpty(format: Format)
    ensures "" !in Suffixes(format)
  {
  }

  /** The nine extensions and their formats, whatever stands before them. */
  lemma EveryExtension(stem: string)
    ensures DetectFormat(stem + ".tar.gz") == DetectFormat(stem + ".tgz") == Some(TarGzip)
    ensures DetectFormat(stem + ".tar.xz") == DetectFormat(stem + ".txz") == Some(TarXz)
    ensures DetectFormat(stem + ".tar.bz2") == DetectFormat(stem + ".tbz2") == Some(TarBzip2)
    ensures DetectFormat(stem + ".tar") == Some(Tar)
    ensures DetectFormat(stem + ".zip") == Some(Zip)
    ensures DetectFormat(stem + ".7z") == Some(SevenZip)
  {
    hide DetectFormat, StripExtension;
    StripsItsExtension(stem, TarGzip, ".tar.gz");
    StripsItsExtension(stem, TarGzip, ".tgz");
    StripsItsExtension(stem, TarXz, ".tar.xz");
    StripsItsExtension(stem, TarXz, ".txz");
    StripsItsExtension(stem, TarBzip2, ".tar.bz2");
    StripsItsExtension(stem, TarBzip2, ".tbz2");
    StripsItsExtension(stem, Tar, ".tar");
    StripsItsExtension(stem, Zip, ".zip");
    StripsItsExtension(stem, SevenZip, ".7z");
  }

  /** Case does not matter, and without one of the extensions the name is kept. */
  lemma OnlyExtensionsStrip(name: string)
    ensures forall other :: Lower(other) == Lower(name) ==> DetectFormat(other) == DetectFormat(name)
    ensures (forall suffix :: suffix in EXTENSIONS ==> !EndsWith(Lower(name), suffix)) ==>
              DetectFormat(name) == None && StripExtension(name) == name
  {
    hide EndsWith, Lower;
    assert forall i :: 0 <= i < |EXTENSIONS| ==> EXTENSIONS[i] in EXTENSIONS;
    assert name[..|name|] == name;
  }

  /**
   * The escapes: an archive called `...zip` leads to the parent of the target directory, one called
   * `..zip` to the target directory itself, and both to numbered names beside what they lead to.
   * `.zip` is not among them.
   */
  lemma DottedArchivesEscape(target: Path)
    requires target != []
    ensures Joined(target, StripExtension("...zip")) == target[..|target| - 1]
    ensures Joined(target, StripExtension("..zip")) == target
    ensures Joined(target, StripExtension(".zip")) == target + ["archive"]
    ensures forall path :: MayLandAt(target, StripExtension("...zip"), path) ==> !Inside(path, target)
    ensures forall path :: MayLandAt(target, StripExtension("..zip"), path) ==> !Inside(path, target)
  {
    hide StripExtension, MayLandAt, Inside, DetectFormat;
    assert ".." + ".zip" == "...zip" && "." + ".zip" == "..zip" && "" + ".zip" == ".zip";
    StripsItsExtension("..", Zip, ".zip");
    StripsItsExtension(".", Zip, ".zip");
    StripsItsExtension("", Zip, ".zip");
    StaysInsideIff(target, "...zip");
    StaysInsideIff(target, "..zip");
  }

  /**
   * Overwriting through `...zip` merges the staged entries into the parent of the target directory. The
   * place of any of them that is not called like the target directory is apart from the target, so a
   * staged entry that changes what stands there changes something outside.
   */
  lemma MergedIntoTheParent(before: Tree, after: Tree, target: Path, staging: string, name: string, a: Option<Tree>,
                            b: Option<Tree>)
    requires target != [] && name != BaseName(target) && Lookup(before, target).Some?
    requires var place, source := Joined(target, "..") + [name], target + [staging] + [name];
             Disjoint(place, source) && Placeable(before, place) && Placeable(before, source)
             && after == Two(before, place, a, source, b)
    ensures Disjoint(Joined(target, "..") + [name], target)
    ensures OnlyTargetChanged(before, after, target) ==> a == Lookup(before, Joined(target, "..") + [name])
  {
    hide Lookup, Put, Placeable;
    var parent := Joined(target, "..");
    var place, source := parent + [name], target + [staging] + [name];
    assert target == parent + [BaseName(target)];
    assert place[|parent|] == name && target[|parent|] == BaseName(target);
    TwoThen(before, place, a, source, b, None);
    FoundIsPlaceable(before, target);
    PutUnseen(before, target, Lookup(after, target), place);
  }
}
