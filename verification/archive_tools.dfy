/** What the archive tools make of a command: the files it leaves, and that expanding undoes compressing. */
module ArchiveTools {
  import opened Wrappers
  import opened PosixShell
  import opened ArchiveCommands

  /** What a file holds, as far as the tools decide it. */
  datatype Content =
    | Tarball(members: seq<string>)
    | Compressed(tool: string, option: string, content: Content)
    | Zipped(option: string, members: seq<string>)
    | SevenZipped(option: string, members: seq<string>)
    | Other

  /** The working directory and the files named from it. */
  datatype Machine = Machine(directory: string, files: map<string, Content>)
  {
    function Write(name: string, content: Content): (after: Machine) {
      this.(files := files[name := content])
    }
  }

  /** The tokens from the `k`-th on, as arguments. */
  function Arguments(command: seq<Token>, k: nat): (arguments: seq<string>)
    requires k <= |command|
  {
    seq(|command| - k, i requires 0 <= i < |command| - k => command[k + i].text)
  }

  predicate Calls(command: seq<Token>, words: seq<string>) {
    |words| <= |command| && forall i :: 0 <= i < |words| ==> command[i] == Word(words[i])
  }

  predicate IsCompressor(tool: string) {
    tool == "gzip" || tool == "xz" || tool == "bzip2"
  }

  /** `tool -level -c -- input > output`, reading an existing file. */
  predicate Compresses(command: seq<Token>, m: Machine) {
    && |command| == 7 && command[0].Word? && IsCompressor(command[0].text) && command[1].Word?
    && command[2] == Word("-c") && command[3] == Word("--") && command[4].Word? && command[4].text in m.files
    && command[5] == Operator(">") && command[6].Word?
  }

  /** `exec tool -dc -- input > output`, reading a file that this tool compressed. */
  predicate Expands(command: seq<Token>, m: Machine) {
    && |command| == 7 && command[0] == Word("exec") && command[1].Word? && IsCompressor(command[1].text)
    && command[2] == Word("-dc") && command[3] == Word("--") && command[4].Word? && command[4].text in m.files
    && m.files[command[4].text].Compressed? && m.files[command[4].text].tool == command[1].text
    && command[5] == Operator(">") && command[6].Word?
  }

  /** One command of the list; nothing when it is not one the tools understand. */
  function RunOne(command: seq<Token>, m: Machine): (after: Option<Machine>) {
    if Calls(command, ["cd"]) && |command| == 2 then Some(m.(directory := command[1].text))
    else if Calls(command, ["tar", "-cf"]) && |command| >= 4 && command[3] == Word("--") then
      Some(m.Write(command[2].text, Tarball(Arguments(command, 4))))
    else if Calls(command, ["rm", "-f", "--"]) && |command| == 4 then
      Some(m.(files := m.files - {command[3].text}))
    else if Calls(command, ["zip", "-q", "-r", "-y"]) && |command| >= 7 && command[6] == Word("--") then
      Some(m.Write(command[5].text, Zipped(command[4].text, Arguments(command, 7))))
    else if (Calls(command, ["7z", "a", "-bd", "-y"]) || Calls(command, ["7zz", "a", "-bd", "-y"]))
            && |command| >= 8 && command[5] == Word("-snl") && command[6] == Word("--") then
      Some(m.Write(command[7].text, SevenZipped(command[4].text, Arguments(command, 8))))
    else if Compresses(command, m) then
      Some(m.Write(command[6].text, Compressed(command[0].text, command[1].text, m.files[command[4].text])))
    else if Expands(command, m) then
      Some(m.Write(command[6].text, m.files[command[4].text].content))
    else None
  }

  /** The first place at which one command ends and the next begins. */
  function EndOfFirst(tokens: seq<Token>): (k: nat)
    ensures k <= |tokens| && (k < |tokens| ==> tokens[k] == Operator("&&"))
  {
    if tokens == [] || tokens[0] == Operator("&&") then 0 else 1 + EndOfFirst(tokens[1..])
  }

  /** Commands joined by `&&`, one after the other. */
  function RunAll(tokens: seq<Token>, m: Machine): (after: Option<Machine>)
    decreases |tokens|
  {
    var k := EndOfFirst(tokens);
    var first := RunOne(tokens[..k], m);
    if k == |tokens| || first.None? then first else RunAll(tokens[k + 1..], first.value)
  }

  lemma {:induction false} EndOfJoined(first: seq<Token>, rest: seq<Token>)
    requires forall i :: 0 <= i < |first| ==> first[i] != Operator("&&")
    ensures EndOfFirst(first) == |first| && EndOfFirst(first + [Operator("&&")] + rest) == |first|
  {
    if first != [] {
      assert (first + [Operator("&&")] + rest)[1..] == first[1..] + [Operator("&&")] + rest;
      EndOfJoined(first[1..], rest);
    }
  }

  lemma RunJoined(first: seq<Token>, rest: seq<Token>, m: Machine)
    requires forall i :: 0 <= i < |first| ==> first[i] != Operator("&&")
    ensures RunAll(first, m) == RunOne(first, m)
    ensures RunOne(first, m).Some? ==>
              RunAll(first + [Operator("&&")] + rest, m) == RunAll(rest, RunOne(first, m).value)
  {
    hide RunOne;
    EndOfJoined(first, rest);
    var tokens := first + [Operator("&&")] + rest;
    assert tokens[..|first|] == first && tokens[|first| + 1..] == rest && first[..|first|] == first;
  }

  /** The words `./name` for the source names. */
  function Sources(names: seq<string>): (words: seq<Token>) {
    seq(|names|, i requires 0 <= i < |names| => Word("./" + names[i]))
  }

  function SourceTexts(names: seq<string>): (texts: seq<string>) {
    seq(|names|, i requires 0 <= i < |names| => "./" + names[i])
  }

  lemma TokensJoined(a: seq<Part>, b: seq<Part>)
    ensures TokensOf(a + b) == TokensOf(a) + TokensOf(b)
  {
  }

  lemma SourceTokens(names: seq<string>)
    ensures TokensOf(SourceParts(names)) == Sources(names)
  {
  }

  // ---------------------------------------------------------------------------------------------
  // Single commands

  lemma TarRuns(output: string, names: seq<string>, m: Machine)
    ensures RunOne([Word("tar"), Word("-cf"), Word(output), Word("--")] + Sources(names), m)
            == Some(m.Write(output, Tarball(SourceTexts(names))))
  {
    var command := [Word("tar"), Word("-cf"), Word(output), Word("--")] + Sources(names);
    assert Calls(command, ["tar", "-cf"]);
    assert Arguments(command, 4) == SourceTexts(names);
  }

  lemma ZipRuns(option: string, output: string, names: seq<string>, m: Machine)
    ensures RunOne([Word("zip"), Word("-q"), Word("-r"), Word("-y"), Word(option), Word(output), Word("--")]
                   + Sources(names), m)
            == Some(m.Write(output, Zipped(option, SourceTexts(names))))
  {
    var command :=
      [Word("zip"), Word("-q"), Word("-r"), Word("-y"), Word(option), Word(output), Word("--")] + Sources(names);
    assert Calls(command, ["zip", "-q", "-r", "-y"]);
    assert Arguments(command, 7) == SourceTexts(names);
  }

  lemma SevenZipRuns(tool: string, option: string, output: string, names: seq<string>, m: Machine)
    requires tool == "7z" || tool == "7zz"
    ensures RunOne([Word(tool), Word("a"), Word("-bd"), Word("-y"), Word(option), Word("-snl"), Word("--"),
                    Word(output)] + Sources(names), m)
            == Some(m.Write(output, SevenZipped(option, SourceTexts(names))))
  {
    var command := [Word(tool), Word("a"), Word("-bd"), Word("-y"), Word(option), Word("-snl"), Word("--"),
                    Word(output)] + Sources(names);
    if tool == "7z" {
      assert Calls(command, ["7z", "a", "-bd", "-y"]);
    } else {
      assert Calls(command, ["7zz", "a", "-bd", "-y"]);
    }
    assert command[1] == Word("a") && command[5] == Word("-snl") && command[6] == Word("--");
    assert !Calls(command, ["tar", "-cf"]) && !Calls(command, ["zip", "-q", "-r", "-y"]);
    assert Arguments(command, 8) == SourceTexts(names);
  }

  // ---------------------------------------------------------------------------------------------
  // Whole commands

  function Digit(level: Level): (digit: string) {
    match level case Store => "0" case Fast => "1" case Standard => "6" case Maximum => "9"
  }

  /** What the output must hold: which tool, at which level, over which members. */
  function Wanted(format: Format, level: Level, names: seq<string>, hasZip: bool): (content: Content) {
    var members := SourceTexts(names);
    match format
    case Tar => Tarball(members)
    case TarGzip => Compressed("gzip", "-" + Digit(level), Tarball(members))
    case TarXz => Compressed("xz", "-" + Digit(level), Tarball(members))
    case TarBzip2 => Compressed("bzip2", "-" + Digit(level), Tarball(members))
    case Zip => if hasZip then Zipped("-" + Digit(level), members) else SevenZipped("-mx=" + Digit(level), members)
    case SevenZip => SevenZipped("-mx=" + Digit(level), members)
  }

  predicate IsCompressedTar(format: Format) {
    format.TarGzip? || format.TarXz? || format.TarBzip2?
  }

  lemma CdRuns(directory: string, rest: seq<Token>, m: Machine)
    ensures RunAll([Word("cd"), Word(directory), Operator("&&")] + rest, m)
            == RunAll(rest, m.(directory := directory))
  {
    var first := [Word("cd"), Word(directory)];
    assert Calls(first, ["cd"]);
    hide RunAll;
    RunJoined(first, rest, m);
    assert first + [Operator("&&")] + rest == [Word("cd"), Word(directory), Operator("&&")] + rest;
  }

  lemma CompressorRuns(tool: string, option: string, input: string, output: string, m: Machine)
    requires IsCompressor(tool) && input in m.files
    ensures RunOne([Word(tool), Word(option), Word("-c"), Word("--"), Word(input), Operator(">"), Word(output)], m)
            == Some(m.Write(output, Compressed(tool, option, m.files[input])))
  {
    var command := [Word(tool), Word(option), Word("-c"), Word("--"), Word(input), Operator(">"), Word(output)];
    assert command[0] == Word(tool) && command[5] == Operator(">") && command[3] == Word("--");
    assert Compresses(command, m);
    assert !Calls(command, ["cd"]) && !Calls(command, ["tar", "-cf"]) && !Calls(command, ["rm", "-f", "--"]);
  }

  lemma RemoveRuns(name: string, m: Machine)
    ensures RunAll([Word("rm"), Word("-f"), Word("--"), Word(name)], m) == Some(m.(files := m.files - {name}))
  {
    var command := [Word("rm"), Word("-f"), Word("--"), Word(name)];
    assert Calls(command, ["rm", "-f", "--"]);
    RunJoined(command, [], m);
  }

  function TarCommand(output: string, names: seq<string>): (command: seq<Token>) {
    [Word("tar"), Word("-cf"), Word(output), Word("--")] + Sources(names)
  }

  function CompressCommand(tool: string, option: string, input: string, output: string): (command: seq<Token>) {
    [Word(tool), Word(option), Word("-c"), Word("--"), Word(input), Operator(">"), Word(output)]
  }

  function RemoveCommand(name: string): (command: seq<Token>) {
    [Word("rm"), Word("-f"), Word("--"), Word(name)]
  }

  const And := [Operator("&&")]

  /** Tar into the intermediate file, compress that into the output, remove it. */
  lemma TarThenRuns(tool: string, level: Level, between: string, output: string, names: seq<string>, m: Machine)
    requires IsCompressor(tool) && between != output
    ensures var option := "-" + Digit(level);
            RunAll(TarCommand(between, names) + And
                   + (CompressCommand(tool, option, between, output) + And + RemoveCommand(between)), m)
            == Some(m.(files := (m.files - {between})[output := Compressed(tool, option, Tarball(SourceTexts(names)))]))
  {
    var option := "-" + Digit(level);
    var content := Compressed(tool, option, Tarball(SourceTexts(names)));
    var tarred := m.Write(between, Tarball(SourceTexts(names)));
    hide RunAll, RunOne;
    TarRuns(between, names, m);
    RunJoined(TarCommand(between, names), CompressCommand(tool, option, between, output) + And + RemoveCommand(between),
              m);
    CompressorRuns(tool, option, between, output, tarred);
    RunJoined(CompressCommand(tool, option, between, output), RemoveCommand(between), tarred);
    RemoveRuns(between, tarred.Write(output, content));
    assert tarred.Write(output, content).files - {between} == (m.files - {between})[output := content];
  }

  lemma ThenTokens(first: seq<Part>, next: seq<Part>)
    ensures TokensOf(Then(first, next)) == TokensOf(first) + And + TokensOf(next)
  {
    hide TokensOf;
    TokensJoined(first + [Control("&&")], next);
    TokensJoined(first, [Control("&&")]);
    assert TokensOf([Control("&&")]) == And;
  }

  lemma PartTokens(tool: string, level: Level, name: string, output: string, names: seq<string>)
    ensures TokensOf(TarParts(Value(output), SourceParts(names))) == TarCommand(output, names)
    ensures TokensOf(CompressorParts(tool, level, Value(name), Value(output)))
            == CompressCommand(tool, "-" + Digit(level), name, output)
    ensures TokensOf(RemovalParts(Value(name))) == RemoveCommand(name)
  {
    hide TokensOf;
    assert Digit(level) == NumericLevel(level);
  }

  lemma TarThenTokens(tool: string, level: Level, between: string, output: string, names: seq<string>)
    ensures TokensOf(TarThen(tool, level, Value(between), Value(output), SourceParts(names)))
            == TarCommand(between, names) + And
               + (CompressCommand(tool, "-" + Digit(level), between, output) + And + RemoveCommand(between))
  {
    hide TokensOf, TarParts, CompressorParts, RemovalParts, Then, TarCommand, CompressCommand, RemoveCommand;
    PartTokens(tool, level, between, output, names);
    PartTokens(tool, level, between, between, names);
    ThenTokens(CompressorParts(tool, level, Value(between), Value(output)), RemovalParts(Value(between)));
    ThenTokens(TarParts(Value(between), SourceParts(names)),
               Then(CompressorParts(tool, level, Value(between), Value(output)), RemovalParts(Value(between))));
  }

  function ZipCommand(option: string, output: string, names: seq<string>): (command: seq<Token>) {
    [Word("zip"), Word("-q"), Word("-r"), Word("-y"), Word(option), Word(output), Word("--")] + Sources(names)
  }

  function SevenZipCommand(tool: string, option: string, output: string, names: seq<string>): (command: seq<Token>) {
    [Word(tool), Word("a"), Word("-bd"), Word("-y"), Word(option), Word("-snl"), Word("--"), Word(output)]
    + Sources(names)
  }

  lemma WithSources(head: seq<Part>, words: seq<Token>, names: seq<string>)
    requires |head| == |words| && forall i :: 0 <= i < |head| ==> words[i] == Read(head[i])
    ensures TokensOf(head + SourceParts(names)) == words + Sources(names)
  {
    TokensJoined(head, SourceParts(names));
    TokensAre(head, words);
    SourceTokens(names);
  }

  lemma ZipTokens(level: Level, output: string, names: seq<string>)
    ensures TokensOf(ZipParts(level, Value(output), SourceParts(names)))
            == ZipCommand("-" + Digit(level), output, names)
  {
    hide TokensOf, SourceParts, Sources;
    assert Digit(level) == NumericLevel(level);
    var option := "-" + NumericLevel(level);
    WithSources([Fixed("zip"), Fixed("-q"), Fixed("-r"), Fixed("-y"), Fixed(option), Value(output), Fixed("--")],
                [Word("zip"), Word("-q"), Word("-r"), Word("-y"), Word(option), Word(output), Word("--")], names);
  }

  lemma SevenZipTokens(level: Level, output: string, names: seq<string>, has7zz: bool)
    ensures TokensOf(SevenZipParts(has7zz, level, Value(output), SourceParts(names)))
            == SevenZipCommand(if has7zz then "7zz" else "7z", "-mx=" + Digit(level), output, names)
  {
    hide TokensOf, SourceParts, Sources;
    assert Digit(level) == NumericLevel(level);
    var tool, option := if has7zz then "7zz" else "7z", "-mx=" + NumericLevel(level);
    WithSources([Fixed(tool), Fixed("a"), Fixed("-bd"), Fixed("-y"), Fixed(option), Fixed("-snl"), Fixed("--"),
                 Value(output)],
                [Word(tool), Word("a"), Word("-bd"), Word("-y"), Word(option), Word("-snl"), Word("--"),
                 Word(output)], names);
  }

  /** What the tools' part of the command leaves. */
  lemma ToolsRun(format: Format, level: Level, output: string, between: string, names: seq<string>,
                 hasZip: bool, has7zz: bool, m: Machine)
    requires between != output
    ensures var parts := ToolParts(format, level, Value(output), Value(between), SourceParts(names), hasZip, has7zz);
            RunAll(TokensOf(parts), m)
            == Some(m.(files := (if IsCompressedTar(format) then m.files - {between} else m.files)
                                [output := Wanted(format, level, names, hasZip)]))
  {
    hide RunAll, RunOne, TokensOf, TarParts, TarThen, ZipParts, SevenZipParts;
    ZipTokens(level, output, names);
    SevenZipTokens(level, output, names, has7zz);
    PartTokens("", level, between, output, names);
    match format {
      case Tar =>
        TarRuns(output, names, m);
        RunJoined(TarCommand(output, names), [], m);
      case TarGzip =>
        TarThenTokens("gzip", level, between, output, names);
        TarThenRuns("gzip", level, between, output, names, m);
      case TarXz =>
        TarThenTokens("xz", level, between, output, names);
        TarThenRuns("xz", level, between, output, names, m);
      case TarBzip2 =>
        TarThenTokens("bzip2", level, between, output, names);
        TarThenRuns("bzip2", level, between, output, names, m);
      case _ =>
        var tool := if has7zz then "7zz" else "7z";
        ZipRuns("-" + Digit(level), output, names, m);
        RunJoined(ZipCommand("-" + Digit(level), output, names), [], m);
        SevenZipRuns(tool, "-mx=" + Digit(level), output, names, m);
        RunJoined(SevenZipCommand(tool, "-mx=" + Digit(level), output, names), [], m);
    }
  }

  /**
   * What a compression command does, for every format, level and names: in the wanted directory, the tool
   * of that format at that level leaves an archive of exactly the sources in the temporary file, the
   * intermediate tar is gone, and no other file is touched.
   */
  lemma CompressionCommandRuns(format: Format, level: Level, directory: string, temporary: string,
                               intermediate: Option<string>, names: seq<string>, hasZip: bool, has7zz: bool, m: Machine)
    requires intermediate != Some(temporary)
    ensures var command := BuildCompressionCommand(format, level, directory, temporary, intermediate, names, hasZip,
                                                   has7zz);
            var between := "./" + if intermediate.Some? then intermediate.value else temporary + ".tar";
            && Lexed(command).current.Between? && !Lexed(command).expands
            && RunAll(Lexed(command).tokens, m)
               == Some(Machine(directory, (if IsCompressedTar(format) then m.files - {between} else m.files)
                                          ["./" + temporary := Wanted(format, level, names, hasZip)]))
  {
    hide RunAll, TokensOf, ToolParts, Lexed, BuildCompressionCommand;
    CompressionCommandRead(format, level, directory, temporary, intermediate, names, hasZip, has7zz);
    var output, between := "./" + temporary, IntermediateName(temporary, intermediate);
    assert output != between by { assert output[2..] == temporary && between[2..] != temporary; }
    var tools := ToolParts(format, level, Value(output), Value(between), SourceParts(names), hasZip, has7zz);
    ThenTokens([Fixed("cd"), Value(directory)], tools);
    TokensAre([Fixed("cd"), Value(directory)], [Word("cd"), Word(directory)]);
    CdRuns(directory, TokensOf(tools), m);
    assert [Word("cd"), Word(directory)] + And == [Word("cd"), Word(directory), Operator("&&")];
    ToolsRun(format, level, output, between, names, hasZip, has7zz, m.(directory := directory));
  }

  lemma TokensAre(parts: seq<Part>, tokens: seq<Token>)
    requires |parts| == |tokens| && forall i :: 0 <= i < |parts| ==> tokens[i] == Read(parts[i])
    ensures TokensOf(parts) == tokens
  {
  }

  /** Expanding what the tool of the format compressed gives back exactly the tar that was compressed. */
  lemma ExpansionUndoesCompression(format: Format, level: Level, names: seq<string>, archive: string, output: string,
                                   m: Machine)
    requires IsCompressedTar(format)
    requires archive in m.files && m.files[archive] == Wanted(format, level, names, true)
    ensures var command := BuildExpansionCommand(format, archive, output);
            && Lexed(command).current.Between? && !Lexed(command).expands
            && RunAll(Lexed(command).tokens, m) == Some(m.Write(output, Tarball(SourceTexts(names))))
  {
    ExpansionCommandRead(format, archive, output);
    var tool := if format.TarGzip? then "gzip" else if format.TarXz? then "xz" else "bzip2";
    var command := [Word("exec"), Word(tool), Word("-dc"), Word("--"), Word(archive), Operator(">"), Word(output)];
    hide Lexed, BuildExpansionCommand;
    ExpanderRuns(tool, archive, output, m);
    RunJoined(command, [], m);
  }

  lemma ExpanderRuns(tool: string, archive: string, output: string, m: Machine)
    requires IsCompressor(tool) && archive in m.files && m.files[archive].Compressed? && m.files[archive].tool == tool
    ensures RunOne([Word("exec"), Word(tool), Word("-dc"), Word("--"), Word(archive), Operator(">"), Word(output)], m)
            == Some(m.Write(output, m.files[archive].content))
  {
    var command := [Word("exec"), Word(tool), Word("-dc"), Word("--"), Word(archive), Operator(">"), Word(output)];
    assert command[0] == Word("exec") && command[5] == Operator(">") && command[3] == Word("--");
    assert command[2] == Word("-dc") && command[4] == Word(archive) && Expands(command, m);
    assert !Calls(command, ["cd"]) && !Calls(command, ["tar", "-cf"]) && !Calls(command, ["rm", "-f", "--"]);
  }
}
