/** POSIX shell quoting, and the token recognition of POSIX.1-2017 XCU 2.2 and 2.3 that undoes it. */
module PosixShell {
  import opened TextReplace

  const ESCAPED_QUOTE := "'\\''"

  /** Single quotes around the value, each of its own single quotes closed, escaped and reopened. */
  function Quoted(value: string): (token: string) {
    "'" + ReplaceAll(value, '\'', ESCAPED_QUOTE) + "'"
  }

  datatype Mode = Unquoted | Escaped | SingleQuoted | DoubleQuoted | DoubleEscaped

  datatype Token = Word(text: string) | Operator(text: string)

  datatype Current = Between | Reading(token: Token)

  /** The tokens read, the one being read, and whether anything so far would be expanded. */
  datatype Lexer = Lexer(tokens: seq<Token>, current: Current, mode: Mode, expands: bool)
  {
    /** Every token so far, the one being read included. */
    function All(): (all: seq<Token>) {
      match current case Between => tokens case Reading(token) => tokens + [token]
    }
  }

  const START := Lexer([], Between, Unquoted, false)

  /** The word being read with `text` appended; a word starts when none is being read. */
  function Extended(lexer: Lexer, text: string): (after: Lexer)
  {
    match lexer.current
    case Reading(Word(before)) => lexer.(current := Reading(Word(before + text)))
    case _ => lexer.(tokens := lexer.All(), current := Reading(Word(text)))
  }

  function Delimited(lexer: Lexer): (after: Lexer) {
    lexer.(tokens := lexer.All(), current := Between)
  }

  function OperatorRead(lexer: Lexer, c: char): (after: Lexer)
  {
    match lexer.current
    case Reading(Operator(before)) => lexer.(current := Reading(Operator(before + [c])))
    case _ => lexer.(tokens := lexer.All(), current := Reading(Operator([c])))
  }

  const BLANKS := " \t\n"
  const OPERATORS := "&|;<>()"
  const EXPANDING := "$`*?[~#"

  /** One more character of shell source. */
  function Fed(lexer: Lexer, c: char): (after: Lexer)
  {
    match lexer.mode
    case Unquoted =>
      if c in BLANKS then Delimited(lexer)
      else if c in OPERATORS then OperatorRead(lexer, c)
      else if c == '\'' then Extended(lexer, "").(mode := SingleQuoted)
      else if c == '"' then Extended(lexer, "").(mode := DoubleQuoted)
      else if c == '\\' then Extended(lexer, "").(mode := Escaped)
      else if c in EXPANDING then Extended(lexer, [c]).(expands := true)
      else Extended(lexer, [c])
    case Escaped => Extended(lexer, [c]).(mode := Unquoted)
    case SingleQuoted => if c == '\'' then lexer.(mode := Unquoted) else Extended(lexer, [c])
    case DoubleQuoted =>
      if c == '"' then lexer.(mode := Unquoted)
      else if c == '\\' then lexer.(mode := DoubleEscaped)
      else if c in "$`" then Extended(lexer, [c]).(expands := true)
      else Extended(lexer, [c])
    case DoubleEscaped => Extended(lexer, if c in "$`\"\\" then [c] else ['\\', c]).(mode := DoubleQuoted)
  }

  function FedAll(lexer: Lexer, text: string): (after: Lexer)
    decreases |text|
  {
    if text == "" then lexer else FedAll(Fed(lexer, text[0]), text[1..])
  }

  /** A complete source: its tokens, when it ends outside quotes. */
  function Lexed(text: string): (lexer: Lexer) {
    Delimited(FedAll(START, text))
  }

  lemma {:induction false} FedJoined(lexer: Lexer, a: string, b: string)
    ensures FedAll(lexer, a + b) == FedAll(FedAll(lexer, a), b)
    decreases |a|
  {
    if a == "" {
      assert a + b == b;
    } else {
      assert (a + b)[1..] == a[1..] + b;
      FedJoined(Fed(lexer, a[0]), a[1..], b);
    }
  }

  lemma ExtendedTwice(lexer: Lexer, a: string, b: string)
    ensures Extended(Extended(lexer, a), b) == Extended(lexer, a + b)
  {
    match lexer.current {
      case Reading(Word(before)) => assert before + a + b == before + (a + b);
      case _ =>
    }
  }

  /** Closing, escaping and reopening leaves one quote character in the word. */
  lemma EscapedQuoteRead(lexer: Lexer)
    requires lexer.current.Reading? && lexer.current.token.Word? && lexer.mode.SingleQuoted?
    ensures FedAll(lexer, ESCAPED_QUOTE) == Extended(lexer, "'")
  {
    var closed := Fed(lexer, '\'');
    var escaped := Fed(closed, '\\');
    var read := Fed(escaped, '\'');
    var reopened := Fed(read, '\'');
    var word := lexer.current.token.text;
    assert word + "" == word && word + "'" + "" == word + "'";
    assert ESCAPED_QUOTE[1..] == "\\''" && "\\''"[1..] == "''" && "''"[1..] == "'" && "'"[1..] == "";
    assert FedAll(reopened, "") == reopened;
    assert FedAll(read, "'") == FedAll(reopened, "");
    assert FedAll(escaped, "''") == FedAll(read, "'");
    assert FedAll(closed, "\\''") == FedAll(escaped, "''");
  }

  /** Inside single quotes the escaped value reads as the value. */
  lemma {:induction false} EscapedValueRead(lexer: Lexer, value: string)
    requires lexer.current.Reading? && lexer.current.token.Word? && lexer.mode.SingleQuoted?
    ensures FedAll(lexer, ReplaceAll(value, '\'', ESCAPED_QUOTE)) == Extended(lexer, value)
    decreases |value|
  {
    var word := lexer.current.token.text;
    if value == "" {
      assert word + "" == word;
    } else {
      var rest := ReplaceAll(value[1..], '\'', ESCAPED_QUOTE);
      var first := if value[0] == '\'' then ESCAPED_QUOTE else [value[0]];
      FedJoined(lexer, first, rest);
      if value[0] == '\'' {
        EscapedQuoteRead(lexer);
      } else {
        assert FedAll(Fed(lexer, value[0]), "") == Fed(lexer, value[0]);
        assert first[1..] == "";
      }
      assert [value[0]] == if value[0] == '\'' then "'" else [value[0]];
      EscapedValueRead(Extended(lexer, [value[0]]), value[1..]);
      ExtendedTwice(lexer, [value[0]], value[1..]);
      assert [value[0]] + value[1..] == value;
    }
  }

  /**
   * Wherever shell source is outside quotes, a quoted value appends exactly the value to the word being
   * read, starts no other token, triggers no expansion and ends outside quotes again.
   */
  lemma QuotedIsOneWord(lexer: Lexer, value: string)
    requires lexer.mode.Unquoted?
    ensures FedAll(lexer, Quoted(value)) == Extended(lexer, value)
  {
    var inner := Extended(lexer, "").(mode := SingleQuoted);
    var body := ReplaceAll(value, '\'', ESCAPED_QUOTE);
    FedJoined(lexer, "'", body + "'");
    assert Quoted(value) == "'" + (body + "'");
    assert Fed(lexer, '\'') == inner && "'"[1..] == "";
    assert FedAll(lexer, "'") == FedAll(inner, "") == inner;
    FedJoined(inner, body, "'");
    EscapedValueRead(inner, value);
    ExtendedTwice(lexer, "", value);
    assert "" + value == value;
    var inside := Extended(inner, value);
    assert FedAll(inside, "'") == FedAll(Fed(inside, '\''), "");
  }

  /** Alone, a quoted value is one word, the value itself, and nothing in it is expanded. */
  lemma QuotedAlone(value: string)
    ensures Lexed(Quoted(value)) == Lexer([Word(value)], Between, Unquoted, false)
  {
    QuotedIsOneWord(START, value);
  }

  /**
   * A script that quotes a value, itself quoted as an argument of another command: the outer shell passes
   * the script on unchanged, and the inner shell reads the value back.
   */
  lemma NestedQuoting(before: string, value: string, after: string)
    requires FedAll(START, before).mode.Unquoted?
    ensures var script := before + Quoted(value) + after;
            && Lexed(Quoted(script)).tokens == [Word(script)] && !Lexed(Quoted(script)).expands
            && FedAll(START, script) == FedAll(Extended(FedAll(START, before), value), after)
  {
    var script := before + Quoted(value) + after;
    QuotedAlone(script);
    FedJoined(START, before + Quoted(value), after);
    FedJoined(START, before, Quoted(value));
    QuotedIsOneWord(FedAll(START, before), value);
  }

  lemma NothingRead(lexer: Lexer)
    ensures FedAll(lexer, "") == lexer
  {
  }

  lemma SpaceRead(lexer: Lexer)
    requires lexer.mode.Unquoted?
    ensures FedAll(lexer, " ") == Delimited(lexer)
  {
    assert " "[1..] == "";
    NothingRead(Fed(lexer, ' '));
  }
}
