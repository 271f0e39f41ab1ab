/** Which remote path a raw task claim stands for, and when claims conflict as the remote paths do. */
module ClaimPaths {
  import opened PathText
  import opened TaskClaims

  predicate Absolute(raw: string) {
    raw != "" && raw[0] == '/'
  }

  /** The remote path a raw absolute path names, read piece by piece. */
  function RemoteNames(raw: string): (names: seq<string>)
    ensures AllNames(names)
  {
    Resolve([], Split(ForwardSlashes(raw)))
  }

  /** One remote path is equal to or above the other. */
  predicate Related(a: seq<string>, b: seq<string>) {
    a <= b || b <= a
  }

  /** Trimming leaves the end of the path alone. */
  predicate EndsTrimmed(raw: string)
    requires raw != ""
  {
    !IsTrimmed(raw[|raw| - 1])
  }

  function Last(parts: seq<string>): (part: string)
    requires parts != []
  {
    parts[|parts| - 1]
  }

  function Front(parts: seq<string>): (front: seq<string>)
    requires parts != []
  {
    parts[..|parts| - 1]
  }

  // ---------------------------------------------------------------------------------------------
  // The last piece of a path

  /** Either there is no slash, or the first piece ends at the first one. */
  lemma FirstPiece(text: string) returns (part: string, rest: string)
    ensures '/' !in part
    ensures if '/' in text then text == part + "/" + rest && |rest| < |text| && Split(text) == [part] + Split(rest)
            else part == text && Split(text) == [text]
  {
    part, rest := FirstPart(text), "";
    if |part| == |text| {
      assert part == text;
    } else {
      rest := text[|part| + 1..];
      assert text == part + "/" + rest;
    }
  }

  /** Text without a slash only extends the last piece. */
  lemma {:induction false} SplitExtended(text: string, tail: string)
    requires '/' !in tail
    ensures Split(text) != [] && Split(text + tail) == Front(Split(text)) + [Last(Split(text)) + tail]
    decreases |text|
  {
    var part, rest := FirstPiece(text);
    hide Split, FirstPart;
    if '/' in text {
      SplitExtended(rest, tail);
      assert text + tail == part + "/" + (rest + tail);
      SplitAtSlash(part, rest + tail);
    } else {
      SplitName(text + tail);
    }
  }

  lemma {:induction false} ResolveSnoc(base: seq<string>, parts: seq<string>, last: string)
    requires AllNames(base) && '/' !in last
    requires forall i :: 0 <= i < |parts| ==> '/' !in parts[i]
    ensures Resolve(base, parts + [last]) == Resolve(Resolve(base, parts), [last])
    decreases |parts|
  {
    if parts == [] {
      assert [] + [last] == [last];
    } else {
      assert (parts + [last])[1..] == parts[1..] + [last];
      if parts[0] == "" || parts[0] == "." {
        ResolveSnoc(base, parts[1..], last);
      } else if parts[0] == ".." {
        ResolveSnoc(if base == [] then base else base[..|base| - 1], parts[1..], last);
      } else {
        ResolveSnoc(base + [parts[0]], parts[1..], last);
      }
    }
  }

  lemma ResolveOne(base: seq<string>, last: string)
    requires AllNames(base) && '/' !in last
    ensures IsName(last) ==> Resolve(base, [last]) == base + [last]
    ensures !IsName(last) ==> Resolve(base, [last]) <= base
  {
    assert [last][1..] == [];
  }

  /** What the last piece of a path adds to, or takes from, the path before it. */
  lemma LastPiece(text: string)
    ensures Split(text) != []
    ensures var before, last := Resolve([], Front(Split(text))), Last(Split(text));
            && AllNames(before)
            && (IsName(last) ==> Resolve([], Split(text)) == before + [last])
            && (!IsName(last) ==> Resolve([], Split(text)) <= before)
  {
    SplitExtended(text, "");
    var front, last := Front(Split(text)), Last(Split(text));
    assert Split(text) == front + [last];
    ResolveSnoc([], front, last);
    ResolveOne(Resolve([], front), last);
  }

  /** A non-empty last piece ends as the text does. */
  lemma {:induction false} LastPieceEnds(text: string)
    requires Split(text) != [] && Last(Split(text)) != ""
    ensures text != "" && Last(Split(text))[|Last(Split(text))| - 1] == text[|text| - 1]
    decreases |text|
  {
    var part, rest := FirstPiece(text);
    hide Split, FirstPart;
    if '/' in text {
      SplitExtended(rest, "");
      assert Last(Split(text)) == Last(Split(rest));
      LastPieceEnds(rest);
    }
  }

  lemma {:induction false} SplitSnoc(text: string, piece: string)
    requires '/' !in piece
    ensures Split(text + "/" + piece) == Split(text) + [piece]
    decreases |text|
  {
    var part, rest := FirstPiece(text);
    hide Split, FirstPart;
    if '/' in text {
      SplitSnoc(rest, piece);
      assert text + "/" + piece == part + "/" + (rest + "/" + piece);
      SplitAtSlash(part, rest + "/" + piece);
    } else {
      SplitAtSlash(text, piece);
      SplitName(piece);
    }
  }

  lemma OnePieceMore(raw: string, piece: string)
    requires '/' !in piece && '\\' !in piece
    ensures RemoteNames(raw + "/" + piece) == Resolve(RemoteNames(raw), [piece])
  {
    hide Split, Resolve;
    SlashesJoined(raw + "/", piece);
    SlashesJoined(raw, "/");
    assert ForwardSlashes("/") == "/" && ForwardSlashes(piece) == piece;
    SplitSnoc(ForwardSlashes(raw), piece);
    ResolveSnoc([], Split(ForwardSlashes(raw)), piece);
  }

  /**
   * How a path is read, piece by piece, from the empty text on: a name goes down, `..` goes up and stops
   * at the root, `.` and doubled slashes stay, and a backslash counts as a slash.
   */
  lemma PathIsWalked(raw: string, name: string)
    requires IsName(name) && '\\' !in name
    ensures RemoteNames("") == []
    ensures RemoteNames(raw + "/" + name) == RemoteNames(raw) + [name]
    ensures RemoteNames(raw + "/" + "..") == if RemoteNames(raw) == [] then [] else Front(RemoteNames(raw))
    ensures RemoteNames(raw + "/" + ".") == RemoteNames(raw) && RemoteNames(raw + "/" + "") == RemoteNames(raw)
    ensures RemoteNames(raw + "\\" + name) == RemoteNames(raw + "/" + name)
  {
    hide Split;
    SplitName("");
    assert ForwardSlashes("") == "" && [""][1..] == [];
    OnePieceMore(raw, name);
    OnePieceMore(raw, "..");
    OnePieceMore(raw, ".");
    OnePieceMore(raw, "");
    assert [name][1..] == [] && [".."][1..] == [] && ["."][1..] == [];
    SlashesJoined(raw + "\\", name);
    SlashesJoined(raw, "\\");
    SlashesJoined(raw + "/", name);
    SlashesJoined(raw, "/");
    assert ForwardSlashes("\\") == "/" == ForwardSlashes("/");
  }

  // ---------------------------------------------------------------------------------------------
  // Trimming

  lemma {:induction false} TrimmedTail(text: string) returns (tail: string)
    ensures text == TrimEnd(text) + tail
    ensures forall i :: 0 <= i < |tail| ==> IsTrimmed(tail[i])
    ensures TrimEnd(text) != "" ==> !IsTrimmed(TrimEnd(text)[|TrimEnd(text)| - 1])
    ensures text != "" ==> (tail == "" <==> !IsTrimmed(text[|text| - 1]))
  {
    if text != "" && IsTrimmed(text[|text| - 1]) {
      var rest := TrimmedTail(text[..|text| - 1]);
      tail := rest + [text[|text| - 1]];
      assert text == text[..|text| - 1] + [text[|text| - 1]];
    } else {
      tail := "";
      assert text == text + "";
    }
  }

  lemma {:induction false} TrimmedAtEnd(text: string, c: char)
    requires IsTrimmed(c)
    ensures TrimEnd(TrimStart(text + [c])) == TrimEnd(TrimStart(text))
  {
    if text == "" {
      assert text + [c] == [c] && [c][1..] == "";
    } else if IsTrimmed(text[0]) {
      assert (text + [c])[1..] == text[1..] + [c];
      TrimmedAtEnd(text[1..], c);
    } else {
      assert (text + [c])[..|text|] == text;
    }
  }

  /** White space around a claim does not matter, and what is not absolute without it claims the root. */
  lemma SpaceAroundIsIgnored(raw: string, c: char)
    requires IsTrimmed(c)
    ensures ClaimNames([c] + raw) == ClaimNames(raw) && ClaimNames(raw + [c]) == ClaimNames(raw)
    ensures raw != "" && !IsTrimmed(raw[0]) && raw[0] != '/' && raw[0] != '\\' ==> ClaimNames(raw) == []
  {
    assert ([c] + raw)[1..] == raw;
    TrimmedAtEnd(raw, c);
    StartsAlike(raw);
  }

  lemma {:induction false} StartsAlike(text: string)
    ensures TrimEnd(text) != "" ==> TrimEnd(text)[0] == text[0]
    ensures text != "" && !IsTrimmed(text[0]) ==> TrimEnd(text) != ""
  {
    if text != "" && IsTrimmed(text[|text| - 1]) {
      StartsAlike(text[..|text| - 1]);
    }
  }

  lemma NoSlashTrimmed(tail: string)
    requires forall i :: 0 <= i < |tail| ==> IsTrimmed(tail[i])
    ensures '/' !in tail && ForwardSlashes(tail) == tail
  {
    assert !IsTrimmed('/') && !IsTrimmed('\\');
  }

  lemma SlashesJoined(a: string, b: string)
    ensures ForwardSlashes(a + b) == ForwardSlashes(a) + ForwardSlashes(b)
  {
  }

  /**
   * A claim stands for the remote path of a raw absolute path exactly when the raw path does not end
   * in a character that trimming removes.
   */
  lemma ClaimIsRemotePathIff(raw: string)
    requires Absolute(raw)
    ensures ClaimNames(raw) == RemoteNames(raw) <==> EndsTrimmed(raw)
  {
    assert TrimStart(raw) == raw by { assert !IsTrimmed('/'); }
    var tail := TrimmedTail(raw);
    if tail == "" {
      assert raw + "" == raw;
      assert ForwardSlashes(raw)[0] == '/';
    } else {
      TrimmedNamesOther(raw, tail);
    }
  }

  /** With white space at its end, the claim loses the last remote name or has another in its place. */
  lemma TrimmedNamesOther(raw: string, tail: string)
    requires Absolute(raw) && raw == TrimEnd(raw) + tail && tail != ""
    requires forall i :: 0 <= i < |tail| ==> IsTrimmed(tail[i])
    ensures var base, last := RemoteBase(raw), RemoteLast(raw);
            && AllNames(base) && IsName(last) && RemoteNames(raw) == base + [last] && IsTrimmed(last[|last| - 1])
            && (ClaimNames(raw) <= base || exists other :: other != last && ClaimNames(raw) == base + [other])
    ensures ClaimNames(raw) != RemoteNames(raw)
  {
    NoSlashTrimmed(tail);
    var kept := ForwardSlashes(TrimEnd(raw));
    assert !IsTrimmed('/');
    assert TrimStart(raw) == raw;
    SlashesJoined(TrimEnd(raw), tail);
    SplitExtended(kept, tail);
    var front, last := Front(Split(kept)), Last(Split(kept));
    assert Split(kept + tail) == front + [last + tail];
    ExtendedIsName(last, tail);
    LastPiece(kept + tail);
    LastPiece(kept);
    KeptIsAbsolute(raw, tail);
    assert Front(Split(kept + tail)) == front && Last(Split(kept + tail)) == last + tail;
    assert last != last + tail;
    var base := Resolve([], front);
    assert (base + [last])[|base|] != (base + [last + tail])[|base|];
  }

  lemma ExtendedIsName(last: string, tail: string)
    requires '/' !in last && '/' !in tail && tail != "" && IsTrimmed(tail[|tail| - 1])
    ensures IsName(last + tail) && IsTrimmed((last + tail)[|last + tail| - 1])
  {
    assert !IsTrimmed('.');
    var name := last + tail;
    assert name[|name| - 1] == tail[|tail| - 1];
    assert "."[0] == '.' && ".."[1] == '.';
  }

  lemma KeptIsAbsolute(raw: string, tail: string)
    requires Absolute(raw) && raw == TrimEnd(raw) + tail
    requires forall i :: 0 <= i < |tail| ==> IsTrimmed(tail[i])
    ensures TrimEnd(raw) != "" && ForwardSlashes(TrimEnd(raw))[0] == '/'
  {
    assert !IsTrimmed('/');
    assert "" + tail == tail;
  }

  /** The remote path without its last name, and that name as the raw path spells it. */
  function RemoteBase(raw: string): (base: seq<string>) {
    var parts := Split(ForwardSlashes(raw));
    if parts == [] then [] else Resolve([], Front(parts))
  }

  function RemoteLast(raw: string): (last: string) {
    var parts := Split(ForwardSlashes(raw));
    if parts == [] then "" else Last(parts)
  }

  // ---------------------------------------------------------------------------------------------
  // Idempotence, from the input alone

  /** A path whose last piece, after trimming, is an ordinary name normalises idempotently. */
  lemma NormalizeIdempotentForNames(input: string)
    requires var slashed := ForwardSlashes(TrimEnd(TrimStart(input)));
             Absolute(slashed) && Split(slashed) != [] && IsName(Last(Split(slashed)))
    ensures NormalizeClaimPath(NormalizeClaimPath(input)) == NormalizeClaimPath(input)
  {
    var trimmed := TrimEnd(TrimStart(input));
    var slashed := ForwardSlashes(trimmed);
    var tail := TrimmedTail(TrimStart(input));
    NormalizeIdempotentWhen(input);
    hide Split, Resolve, TrimStart, TrimEnd, FirstPart, IsTrimmed;
    LastPiece(slashed);
    LastPieceEnds(slashed);
    var before, last := Resolve([], Front(Split(slashed))), Last(Split(slashed));
    assert last[|last| - 1] == slashed[|slashed| - 1] == trimmed[|trimmed| - 1];
    SlashedSnoc(before, last);
  }

  // ---------------------------------------------------------------------------------------------
  // Conflicts

  /** Two raw absolute paths left alone by trimming conflict exactly when one remote path is at or above the other. */
  lemma ConflictsAsRemote(a: string, b: string)
    requires Absolute(a) && Absolute(b) && EndsTrimmed(a) && EndsTrimmed(b)
    ensures ClaimsConflict(NormalizeClaimPath(a), NormalizeClaimPath(b)) <==> Related(RemoteNames(a), RemoteNames(b))
  {
    ClaimIsRemotePathIff(a);
    ClaimIsRemotePathIff(b);
    ConflictIsAncestry(RemoteNames(a), RemoteNames(b));
  }

  /** The claim of `raw` conflicts with that of `other` exactly when their remote paths are related. */
  predicate ConflictIsRight(raw: string, other: string) {
    ClaimsConflict(NormalizeClaimPath(raw), NormalizeClaimPath(other))
    <==> Related(RemoteNames(raw), RemoteNames(other))
  }

  /**
   * The exact condition: the conflicts of a raw absolute path with paths that trimming leaves alone are
   * all as the remote paths require if and only if trimming leaves it alone as well.
   */
  lemma ConflictsRightIff(raw: string)
    requires Absolute(raw)
    ensures (forall other | Absolute(other) && EndsTrimmed(other) :: ConflictIsRight(raw, other)) <==> EndsTrimmed(raw)
  {
    if EndsTrimmed(raw) {
      forall other | Absolute(other) && EndsTrimmed(other)
        ensures ConflictIsRight(raw, other)
      {
        ConflictsAsRemote(raw, other);
      }
    } else {
      var other := WrongConflict(raw);
    }
  }

  lemma WrongConflict(raw: string) returns (other: string)
    requires Absolute(raw) && !EndsTrimmed(raw)
    ensures Absolute(other) && EndsTrimmed(other) && !ConflictIsRight(raw, other)
  {
    var tail := TrimmedTail(raw);
    TrimmedNamesOther(raw, tail);
    BaseHasNoBackslash(raw);
    var base, last := RemoteBase(raw), RemoteLast(raw);
    if ClaimNames(raw) <= base {
      assert IsName("a") && !IsTrimmed('a');
      other := SpelledPath(base, "a");
      assert base + ["a"] != base + [last] by { assert (base + [last])[|base|] == last; }
      ConflictIsAncestry(ClaimNames(raw), base + ["a"]);
    } else {
      other := SpelledPath(base, last);
      ConflictIsAncestry(ClaimNames(raw), base + [last]);
      var instead :| instead != last && ClaimNames(raw) == base + [instead];
      assert (base + [instead])[|base|] != (base + [last])[|base|];
    }
  }

  /** Neither the remote path nor what is above it has a backslash in it. */
  lemma BaseHasNoBackslash(raw: string)
    ensures '\\' !in Slashed(RemoteBase(raw)) && '\\' !in RemoteLast(raw)
  {
    var slashed := ForwardSlashes(raw);
    SplitAvoids('\\', slashed);
    SplitExtended(slashed, "");
    ResolveAvoids('\\', [], Front(Split(slashed)));
  }

  /** Another raw spelling of a remote path, one that trimming leaves alone. */
  lemma SpelledPath(base: seq<string>, name: string) returns (raw: string)
    requires AllNames(base) && IsName(name) && '\\' !in Slashed(base) && '\\' !in name
    ensures Absolute(raw) && EndsTrimmed(raw)
    ensures RemoteNames(raw) == base + [name] && NormalizeClaimPath(raw) == Render(base + [name])
  {
    var names := base + [name];
    raw := Slashed(names) + "/" + ".";
    SlashedSnoc(base, name);
    assert raw == Slashed(names) + "/" + ".";
    assert ForwardSlashes(raw) == raw;
    SplitOfSlashed("", names);
    assert "" + Slashed(names) == Slashed(names);
    SpelledWithDot(Slashed(names));
    assert !IsTrimmed('.');
    ResolveOfRender(names);
    ResolveSnoc([], Split(Slashed(names)), ".");
    assert ["."][1..] == [];
    assert Resolve(names, ["."]) == Resolve(names, []) == names;
    ClaimIsRemotePathIff(raw);
  }

  lemma {:induction false} SpelledWithDot(text: string)
    ensures Split(text + "/" + ".") == Split(text) + ["."]
    decreases |text|
  {
    var part, rest := FirstPiece(text);
    hide Split, FirstPart;
    if '/' in text {
      SpelledWithDot(rest);
      assert text + "/" + "." == part + "/" + (rest + "/" + ".");
      SplitAtSlash(part, rest + "/" + ".");
    } else {
      SplitAtSlash(text, ".");
      SplitName(".");
    }
  }

  /** Two raw paths of one remote directory whose claims do not conflict. */
  lemma OneDirectoryTwoClaims()
    ensures RemoteNames("/x /.") == RemoteNames("/x ")
    ensures !ClaimsConflict(NormalizeClaimPath("/x /."), NormalizeClaimPath("/x "))
  {
    hide Split, Resolve, FirstPart, TrimStart, TrimEnd;
    ExampleNames();
    assert Absolute("/x /.") && !IsTrimmed('.');
    ClaimIsRemotePathIff("/x /.");
    TrimmedExample();
    RemoteExample();
    RenderedExample();
    assert NormalizeClaimPath("/x /.") == "/x ";
    assert "/x " + "/" == "/x /" && "/x" + "/" == "/x/";
    assert "/x /"[2] == ' ' && "/x/"[2] == '/';
  }

  lemma RenderedExample()
    ensures Render(["x "]) == "/x "
  {
    assert ["x "][1..] == [];
    assert "/" + "x " + "" == "/x ";
  }

  lemma TrimmedExample()
    ensures NormalizeClaimPath("/x ") == "/x"
  {
    assert IsTrimmed(' ') && !IsTrimmed('x') && !IsTrimmed('/');
    assert "/x "[..2] == "/x" && TrimEnd("/x") == "/x" && TrimEnd("/x ") == "/x" && TrimStart("/x ") == "/x ";
    assert ForwardSlashes("/x") == "/x";
    assert "/x" == Slashed(["x"]) by { assert ["x"][1..] == []; assert "/" + "x" + "" == "/x"; }
    ResolveOfRender(["x"]);
  }

  lemma RemoteExample()
    ensures RemoteNames("/x ") == ["x "]
  {
    assert ForwardSlashes("/x ") == "/x ";
    assert "/x " == Slashed(["x "]) by { assert ["x "][1..] == []; assert "/" + "x " + "" == "/x "; }
    ResolveOfRender(["x "]);
  }
}
