/** The remote commands of an archive operation, and what a POSIX shell reads in them. */
module ArchiveCommands {
  import opened Wrappers
  import opened PosixShell

  datatype Format = Tar | TarGzip | TarXz | TarBzip2 | Zip | SevenZip

  datatype Level = Store | Fast | Standard | Maximum

  /** A command is written as fixed words, quoted values and control operators with one space between them. */
  datatype Part = Fixed(text: string) | Value(value: string) | Control(text: string)

  function Written(part: Part): (text: string) {
    match part case Fixed(text) => text case Value(value) => Quoted(value) case Control(text) => text
  }

  function Read(part: Part): (token: Token) {
    match part case Fixed(text) => Word(text) case Value(value) => Word(value) case Control(text) => Operator(text)
  }

  /** Characters a POSIX shell never treats specially. */
  predicate IsPlain(c: char) {
    'a' <= c <= 'z' || '0' <= c <= '9' || c == '-' || c == '='
  }

  predicate AllPlain(text: string) {
    text == "" || (IsPlain(text[0]) && AllPlain(text[1..]))
  }

  predicate AllOperators(text: string) {
    text == "" || ((text[0] == '&' || text[0] == '>') && AllOperators(text[1..]))
  }

  predicate Proper(part: Part) {
    match part
    case Fixed(text) => text != "" && AllPlain(text)
    case Value(_) => true
    case Control(text) => text != "" && AllOperators(text)
  }

  predicate AllProper(parts: seq<Part>) {
    forall part :: part in parts ==> Proper(part)
  }

  /** Each part with a space before it. */
  function Spaced(parts: seq<Part>): (text: string) {
    if parts == [] then "" else " " + Written(parts[0]) + Spaced(parts[1..])
  }

  function CommandText(parts: seq<Part>): (text: string)
    requires parts != []
  {
    Written(parts[0]) + Spaced(parts[1..])
  }

  function TokensOf(parts: seq<Part>): (tokens: seq<Token>)
    ensures |tokens| == |parts| && forall i :: 0 <= i < |parts| ==> tokens[i] == Read(parts[i])
  {
    if parts == [] then [] else [Read(parts[0])] + TokensOf(parts[1..])
  }

  function NumericLevel(level: Level): (digit: string) {
    match level case Store => "0" case Fast => "1" case Standard => "6" case Maximum => "9"
  }

  /** Source names as arguments of their own, each made relative so that none can be taken for an option. */
  function SourceParts(names: seq<string>): (parts: seq<Part>)
    ensures |parts| == |names| && forall i :: 0 <= i < |names| ==> parts[i] == Value("./" + names[i])
  {
    if names == [] then [] else [Value("./" + names[0])] + SourceParts(names[1..])
  }

  function TarParts(output: Part, sources: seq<Part>): (parts: seq<Part>) {
    [Fixed("tar"), Fixed("-cf"), output, Fixed("--")] + sources
  }

  function CompressorParts(compressor: string, level: Level, input: Part, output: Part): (parts: seq<Part>) {
    [Fixed(compressor), Fixed("-" + NumericLevel(level)), Fixed("-c"), Fixed("--"), input, Control(">"), output]
  }

  function RemovalParts(file: Part): (parts: seq<Part>) {
    [Fixed("rm"), Fixed("-f"), Fixed("--"), file]
  }

  /** One command, and another once it succeeded. */
  function Then(first: seq<Part>, next: seq<Part>): (parts: seq<Part>) {
    first + [Control("&&")] + next
  }

  function TarThen(compressor: string, level: Level, intermediate: Part, output: Part, sources: seq<Part>)
    : (parts: seq<Part>)
  {
    Then(TarParts(intermediate, sources),
         Then(CompressorParts(compressor, level, intermediate, output), RemovalParts(intermediate)))
  }

  function ZipParts(level: Level, output: Part, sources: seq<Part>): (parts: seq<Part>) {
    [Fixed("zip"), Fixed("-q"), Fixed("-r"), Fixed("-y"), Fixed("-" + NumericLevel(level)), output, Fixed("--")]
    + sources
  }

  function SevenZipParts(has7zz: bool, level: Level, output: Part, sources: seq<Part>): (parts: seq<Part>) {
    [Fixed(if has7zz then "7zz" else "7z"), Fixed("a"), Fixed("-bd"), Fixed("-y"),
     Fixed("-mx=" + NumericLevel(level)), Fixed("-snl"), Fixed("--"), output] + sources
  }

  /** The archive tools' part of the compression command, with the tools the host has. */
  function ToolParts(format: Format, level: Level, output: Part, intermediate: Part, sources: seq<Part>,
                     hasZip: bool, has7zz: bool)
    : (parts: seq<Part>)
  {
    match format
    case Tar => TarParts(output, sources)
    case TarGzip => TarThen("gzip", level, intermediate, output, sources)
    case TarXz => TarThen("xz", level, intermediate, output, sources)
    case TarBzip2 => TarThen("bzip2", level, intermediate, output, sources)
    case _ =>
      if format.Zip? && hasZip then ZipParts(level, output, sources) else SevenZipParts(has7zz, level, output, sources)
  }

  /** The file a compressed tar is first written to. */
  function IntermediateName(temporary: string, intermediate: Option<string>): (name: string) {
    "./" + match intermediate case Some(name) => name case None => temporary + ".tar"
  }

  /** The whole compression command. */
  function CompressionParts(format: Format, level: Level, directory: string, temporary: string,
                            intermediate: Option<string>, names: seq<string>, hasZip: bool, has7zz: bool)
    : (parts: seq<Part>)
    ensures parts != []
  {
    Then([Fixed("cd"), Value(directory)],
         ToolParts(format, level, Value("./" + temporary), Value(IntermediateName(temporary, intermediate)),
                   SourceParts(names), hasZip, has7zz))
  }

  function BuildCompressionCommand(format: Format, level: Level, directory: string, temporary: string,
                                   intermediate: Option<string>, names: seq<string>, hasZip: bool, has7zz: bool)
    : (command: string)
  {
    CommandText(CompressionParts(format, level, directory, temporary, intermediate, names, hasZip, has7zz))
  }

  /** The command that expands a compressed tar: the shell replaces itself by the tool, writing to the output. */
  function ExpansionParts(tool: string, archivePath: string, outputPath: string): (parts: seq<Part>) {
    [Fixed("exec"), Fixed(tool), Fixed("-dc"), Fixed("--"), Value(archivePath), Control(">"), Value(outputPath)]
  }

  function BuildExpansionCommand(format: Format, archivePath: string, outputPath: string): (command: string)
    requires format.TarGzip? || format.TarXz? || format.TarBzip2?
  {
    var tool := if format.TarGzip? then "gzip" else if format.TarXz? then "xz" else "bzip2";
    CommandText(ExpansionParts(tool, archivePath, outputPath))
  }

  // ---------------------------------------------------------------------------------------------
  // Reading a command back

  lemma PlainCharRead(lexer: Lexer, c: char)
    requires lexer.mode.Unquoted?
    ensures IsPlain(c) ==> Fed(lexer, c) == Extended(lexer, [c])
    ensures c == '&' || c == '>' ==> Fed(lexer, c) == OperatorRead(lexer, c)
  {
    assert '&' in OPERATORS && '>' in OPERATORS by {
      assert OPERATORS[0] == '&' && OPERATORS[4] == '>';
    }
  }

  lemma {:induction false} PlainRead(lexer: Lexer, text: string)
    requires lexer.mode.Unquoted? && text != "" && AllPlain(text)
    ensures FedAll(lexer, text) == Extended(lexer, text)
    decreases |text|
  {
    hide Fed;
    PlainCharRead(lexer, text[0]);
    var next := Fed(lexer, text[0]);
    if |text| == 1 {
      assert text[1..] == "" && text == [text[0]];
      NothingRead(next);
    } else {
      PlainRead(next, text[1..]);
      ExtendedTwice(lexer, [text[0]], text[1..]);
      assert [text[0]] + text[1..] == text;
    }
  }

  lemma {:induction false} OperatorsRead(lexer: Lexer, text: string)
    requires lexer.mode.Unquoted? && AllOperators(text)
    requires lexer.current.Reading? && lexer.current.token.Operator?
    ensures FedAll(lexer, text) == lexer.(current := Reading(Operator(lexer.current.token.text + text)))
    decreases |text|
  {
    hide Fed;
    var before := lexer.current.token.text;
    if text == "" {
      assert before + "" == before;
    } else {
      PlainCharRead(lexer, text[0]);
      OperatorsRead(Fed(lexer, text[0]), text[1..]);
      assert before + [text[0]] + text[1..] == before + text;
    }
  }

  /** A part written between tokens reads as its token. */
  lemma PartRead(lexer: Lexer, part: Part)
    requires lexer.mode.Unquoted? && lexer.current.Between? && Proper(part)
    ensures FedAll(lexer, Written(part)) == lexer.(current := Reading(Read(part)))
  {
    hide Fed;
    match part {
      case Fixed(text) => PlainRead(lexer, text);
      case Value(value) => QuotedIsOneWord(lexer, value);
      case Control(text) =>
        PlainCharRead(lexer, text[0]);
        OperatorsRead(Fed(lexer, text[0]), text[1..]);
        assert [text[0]] + text[1..] == text;
    }
  }

  lemma NextPartRead(lexer: Lexer, part: Part)
    requires lexer.mode.Unquoted? && Proper(part)
    ensures var read := FedAll(lexer, " " + Written(part));
            read.All() == lexer.All() + [Read(part)] && read.mode.Unquoted? && read.expands == lexer.expands
  {
    hide FedAll, Fed, Written, Read, Proper;
    FedJoined(lexer, " ", Written(part));
    SpaceRead(lexer);
    PartRead(Delimited(lexer), part);
  }

  lemma {:induction false} SpacedRead(lexer: Lexer, parts: seq<Part>)
    requires lexer.mode.Unquoted? && AllProper(parts)
    ensures var read := FedAll(lexer, Spaced(parts));
            read.All() == lexer.All() + TokensOf(parts) && read.mode.Unquoted? && read.expands == lexer.expands
    decreases |parts|
  {
    hide FedAll, Fed, Written, Read, Proper, Lexer.All;
    if parts == [] {
      NothingRead(lexer);
    } else {
      var text, rest := " " + Written(parts[0]), Spaced(parts[1..]);
      assert Spaced(parts) == text + rest;
      FedJoined(lexer, text, rest);
      NextPartRead(lexer, parts[0]);
      SpacedRead(FedAll(lexer, text), parts[1..]);
      assert [Read(parts[0])] + TokensOf(parts[1..]) == TokensOf(parts);
    }
  }

  /** A written command is read as exactly its parts, and nothing in it is expanded. */
  lemma CommandRead(parts: seq<Part>)
    requires parts != [] && AllProper(parts)
    ensures Lexed(CommandText(parts)) == Lexer(TokensOf(parts), Between, Unquoted, false)
  {
    hide FedAll, Fed, Written, Read, Proper;
    FedJoined(START, Written(parts[0]), Spaced(parts[1..]));
    PartRead(START, parts[0]);
    SpacedRead(START.(current := Reading(Read(parts[0]))), parts[1..]);
    assert [Read(parts[0])] + TokensOf(parts[1..]) == TokensOf(parts);
  }

  lemma WordsAreProper()
    ensures Proper(Fixed("cd")) && Proper(Fixed("tar")) && Proper(Fixed("-cf")) && Proper(Fixed("--"))
    ensures Proper(Fixed("gzip")) && Proper(Fixed("xz")) && Proper(Fixed("bzip2")) && Proper(Fixed("-c"))
    ensures Proper(Fixed("rm")) && Proper(Fixed("-f"))
    ensures Proper(Control("&&")) && Proper(Control(">"))
  {
  }

  lemma OtherWordsAreProper()
    ensures Proper(Fixed("zip")) && Proper(Fixed("-q")) && Proper(Fixed("-r")) && Proper(Fixed("-y"))
    ensures Proper(Fixed("7zz")) && Proper(Fixed("7z")) && Proper(Fixed("a")) && Proper(Fixed("-bd"))
    ensures Proper(Fixed("-snl"))
  {
  }

  lemma LevelsAreProper(level: Level)
    ensures Proper(Fixed("-" + NumericLevel(level))) && Proper(Fixed("-mx=" + NumericLevel(level)))
  {
    assert "-" + "0" == "-0" && "-" + "1" == "-1" && "-" + "6" == "-6" && "-" + "9" == "-9";
    assert "-mx=" + "0" == "-mx=0" && "-mx=" + "1" == "-mx=1" && "-mx=" + "6" == "-mx=6" && "-mx=" + "9" == "-mx=9";
    match level {
      case Store => assert Proper(Fixed("-0")) && Proper(Fixed("-mx=0"));
      case Fast => assert Proper(Fixed("-1")) && Proper(Fixed("-mx=1"));
      case Standard => assert Proper(Fixed("-6")) && Proper(Fixed("-mx=6"));
      case Maximum => assert Proper(Fixed("-9")) && Proper(Fixed("-mx=9"));
    }
  }

  lemma ThenIsProper(first: seq<Part>, next: seq<Part>)
    requires AllProper(first) && AllProper(next)
    ensures AllProper(Then(first, next))
  {
    WordsAreProper();
  }

  lemma TarThenIsProper(compressor: string, level: Level, intermediate: Part, output: Part, names: seq<string>)
    requires compressor in ["gzip", "xz", "bzip2"] && intermediate.Value? && output.Value?
    ensures AllProper(TarParts(output, SourceParts(names)))
    ensures AllProper(TarThen(compressor, level, intermediate, output, SourceParts(names)))
  {
    hide Proper, Then;
    WordsAreProper();
    LevelsAreProper(level);
    ValuesAreProper();
    assert forall part :: part in SourceParts(names) ==> part.Value?;
    ThenIsProper(CompressorParts(compressor, level, intermediate, output), RemovalParts(intermediate));
    ThenIsProper(TarParts(intermediate, SourceParts(names)),
                 Then(CompressorParts(compressor, level, intermediate, output), RemovalParts(intermediate)));
  }

  lemma ArchiversAreProper(level: Level, output: Part, names: seq<string>, has7zz: bool)
    requires output.Value?
    ensures AllProper(ZipParts(level, output, SourceParts(names)))
    ensures AllProper(SevenZipParts(has7zz, level, output, SourceParts(names)))
  {
    hide Proper;
    WordsAreProper();
    OtherWordsAreProper();
    LevelsAreProper(level);
    ValuesAreProper();
    assert forall part :: part in SourceParts(names) ==> part.Value?;
  }

  lemma CompressionIsProper(format: Format, level: Level, directory: string, temporary: string,
                            intermediate: Option<string>, names: seq<string>, hasZip: bool, has7zz: bool)
    ensures AllProper(CompressionParts(format, level, directory, temporary, intermediate, names, hasZip, has7zz))
  {
    hide Then, TarParts, TarThen, ZipParts, SevenZipParts, AllProper, Proper;
    var output, between := Value("./" + temporary), Value(IntermediateName(temporary, intermediate));
    TarThenIsProper("gzip", level, between, output, names);
    TarThenIsProper("xz", level, between, output, names);
    TarThenIsProper("bzip2", level, between, output, names);
    ArchiversAreProper(level, output, names, has7zz);
    CdIsProper(directory);
    ThenIsProper([Fixed("cd"), Value(directory)],
                 ToolParts(format, level, output, between, SourceParts(names), hasZip, has7zz));
  }

  lemma CdIsProper(directory: string)
    ensures AllProper([Fixed("cd"), Value(directory)])
  {
    WordsAreProper();
  }

  /**
   * Whatever the directory, temporary and source names contain, the shell reads the intended command:
   * the same words, no others, nothing expanded, and every source as one word starting with `./`.
   */
  lemma CompressionCommandRead(format: Format, level: Level, directory: string, temporary: string,
                               intermediate: Option<string>, names: seq<string>, hasZip: bool, has7zz: bool)
    ensures var parts := CompressionParts(format, level, directory, temporary, intermediate, names, hasZip, has7zz);
            && Lexed(BuildCompressionCommand(format, level, directory, temporary, intermediate, names, hasZip, has7zz))
               == Lexer(TokensOf(parts), Between, Unquoted, false)
            && forall i :: 0 <= i < |names| ==> Word("./" + names[i]) in TokensOf(parts)
  {
    SourcesAmongParts(format, level, directory, temporary, intermediate, names, hasZip, has7zz);
    hide Proper, CommandText, AllProper, Lexed, CompressionParts;
    var parts := CompressionParts(format, level, directory, temporary, intermediate, names, hasZip, has7zz);
    CompressionIsProper(format, level, directory, temporary, intermediate, names, hasZip, has7zz);
    CommandRead(parts);
    SourcesAreWords(parts, names);
  }

  lemma SourcesAmongParts(format: Format, level: Level, directory: string, temporary: string,
                          intermediate: Option<string>, names: seq<string>, hasZip: bool, has7zz: bool)
    ensures forall part :: part in SourceParts(names) ==>
              part in CompressionParts(format, level, directory, temporary, intermediate, names, hasZip, has7zz)
  {
  }

  /** Whatever the two paths contain, the shell reads one tool, one archive and one redirection to the output. */
  lemma ExpansionCommandRead(format: Format, archivePath: string, outputPath: string)
    requires format.TarGzip? || format.TarXz? || format.TarBzip2?
    ensures var tool := if format.TarGzip? then "gzip" else if format.TarXz? then "xz" else "bzip2";
            Lexed(BuildExpansionCommand(format, archivePath, outputPath))
            == Lexer([Word("exec"), Word(tool), Word("-dc"), Word("--"), Word(archivePath), Operator(">"),
                      Word(outputPath)], Between, Unquoted, false)
  {
    hide Proper, CommandText, Lexed;
    var tool := if format.TarGzip? then "gzip" else if format.TarXz? then "xz" else "bzip2";
    WordsAreProper();
    ExpansionWordsAreProper();
    ValuesAreProper();
    CommandRead(ExpansionParts(tool, archivePath, outputPath));
  }

  lemma ExpansionWordsAreProper()
    ensures Proper(Fixed("exec")) && Proper(Fixed("-dc"))
  {
  }

  lemma SourcesAreWords(parts: seq<Part>, names: seq<string>)
    requires forall part :: part in SourceParts(names) ==> part in parts
    ensures forall i :: 0 <= i < |names| ==> Word("./" + names[i]) in TokensOf(parts)
  {
    forall i | 0 <= i < |names|
      ensures Word("./" + names[i]) in TokensOf(parts)
    {
      assert SourceParts(names)[i] in parts;
      var k :| 0 <= k < |parts| && parts[k] == SourceParts(names)[i];
      assert TokensOf(parts)[k] == Word("./" + names[i]);
    }
  }

  lemma ValuesAreProper()
    ensures forall v :: Proper(Value(v))
  {
  }
}
