/** Double-quoted SQLite identifiers, and the ADD COLUMN statements that carry them. */
module SqliteIdentifiers {
  import opened Wrappers
  import opened TextReplace

  function Escape(name: string): (quoted: string) {
    ReplaceAll(name, '"', "\"\"")
  }

  /** Every doubled quote, from the left, becomes one. */
  function Unescape(quoted: string): (name: string)
    decreases |quoted|
  {
    if quoted == "" then ""
    else if |quoted| > 1 && quoted[0] == '"' && quoted[1] == '"' then "\"" + Unescape(quoted[2..])
    else [quoted[0]] + Unescape(quoted[1..])
  }

  /** Text that can stand between the quotes of an identifier: its quotes come in pairs. */
  predicate Paired(quoted: string)
    decreases |quoted|
  {
    quoted == ""
    || (if quoted[0] == '"' then |quoted| > 1 && quoted[1] == '"' && Paired(quoted[2..]) else Paired(quoted[1..]))
  }

  lemma EscapeNothing()
    ensures Escape("") == ""
  {
  }

  lemma EscapeFirst(name: string)
    requires name != ""
    ensures Escape(name) == (if name[0] == '"' then "\"\"" else [name[0]]) + Escape(name[1..])
  {
  }

  lemma {:induction false} UnescapeOfEscape(name: string)
    ensures Unescape(Escape(name)) == name && Paired(Escape(name))
  {
    if name != "" {
      var rest := Escape(name[1..]);
      UnescapeOfEscape(name[1..]);
      assert name == [name[0]] + name[1..];
      if name[0] == '"' {
        assert Escape(name)[2..] == rest;
      } else {
        assert Escape(name)[1..] == rest;
      }
    }
  }

  /** Escaping restores exactly the texts whose quotes come in pairs. */
  lemma {:induction false} EscapeOfUnescape(quoted: string)
    ensures Escape(Unescape(quoted)) == quoted <==> Paired(quoted)
    decreases |quoted|
  {
    if quoted == "" {
    } else if quoted[0] == '"' && |quoted| > 1 && quoted[1] == '"' {
      EscapeOfUnescape(quoted[2..]);
      EscapeFirst(Unescape(quoted));
      assert Unescape(quoted)[1..] == Unescape(quoted[2..]);
      assert quoted == "\"\"" + quoted[2..];
    } else {
      EscapeOfUnescape(quoted[1..]);
      EscapeFirst(Unescape(quoted));
      assert Unescape(quoted)[1..] == Unescape(quoted[1..]);
      assert quoted == [quoted[0]] + quoted[1..];
    }
  }

  // ---------------------------------------------------------------------------------------------
  // Statements

  predicate IsSpace(c: char) {
    c in " \t\n\r\U{000b}\U{000c}"
  }

  function Upper(c: char): (upper: char) {
    if 'a' <= c <= 'z' then (c as int - 32) as char else c
  }

  function SkipSpaces(text: string): (rest: string) {
    if text != "" && IsSpace(text[0]) then SkipSpaces(text[1..]) else text
  }

  /** What follows a keyword, whatever its case. */
  function AfterKeyword(text: string, keyword: string): (rest: Option<string>) {
    if keyword == "" then Some(text)
    else if text != "" && Upper(text[0]) == keyword[0] then AfterKeyword(text[1..], keyword[1..])
    else None
  }

  function AfterSpaces(text: string): (rest: Option<string>) {
    if text != "" && IsSpace(text[0]) then Some(SkipSpaces(text)) else None
  }

  datatype Identifier = Identifier(name: string, rest: string)

  /** The content up to the closing quote; a doubled quote is content. */
  function QuotedContent(text: string): (read: Option<Identifier>)
    decreases |text|
  {
    if text == "" then None
    else if text[0] == '"' then
      if |text| > 1 && text[1] == '"' then Extended("\"\"", QuotedContent(text[2..])) else Some(Identifier("",
            text[1..]))
    else Extended([text[0]], QuotedContent(text[1..]))
  }

  function Extended(head: string, read: Option<Identifier>): (result: Option<Identifier>) {
    match read case None => None case Some(Identifier(name, rest)) => Some(Identifier(head + name, rest))
  }

  function QuotedIdentifier(text: string): (read: Option<Identifier>) {
    if text == "" || text[0] != '"' then None else QuotedContent(text[1..])
  }

  /** What follows a keyword and the spaces after it. */
  function AfterWord(text: string, keyword: string): (rest: Option<string>) {
    match AfterKeyword(text, keyword) case None => None case Some(rest) => AfterSpaces(rest)
  }

  /** Two keywords with spaces after each, then a quoted identifier. */
  function Clause(text: string, first: string, second: string): (read: Option<Identifier>) {
    match AfterWord(text, first)
    case None => None
    case Some(rest) =>
      match AfterWord(rest, second)
      case None => None
      case Some(quoted) => QuotedIdentifier(quoted)
  }

  datatype AddColumn = AddColumn(table: string, column: string)

  /** The table and column of an ADD COLUMN statement; nothing for any other statement. */
  function ParseAddColumn(statement: string): (parsed: Option<AddColumn>) {
    match Clause(statement, "ALTER", "TABLE")
    case None => None
    case Some(Identifier(table, rest)) =>
      match AfterSpaces(rest)
      case None => None
      case Some(tail) =>
        match Clause(tail, "ADD", "COLUMN")
        case None => None
        case Some(Identifier(column, end)) =>
          if end == "" || IsSpace(end[0]) then Some(AddColumn(Unescape(table), Unescape(column))) else None
  }

  /** All statements of a migration, or nothing when there are none or any is not an ADD COLUMN. */
  method ParseAddColumns(statements: seq<string>) returns (parsed: Option<seq<AddColumn>>)
    ensures parsed.Some? <==>
              statements != [] && forall i :: 0 <= i < |statements| ==> ParseAddColumn(statements[i]).Some?
    ensures parsed.Some? ==>
              && |parsed.value| == |statements|
              && forall i :: 0 <= i < |statements| ==> ParseAddColumn(statements[i]) == Some(parsed.value[i])
  {
    hide ParseAddColumn;
    if |statements| == 0 {
      return None;
    }
    var list: seq<AddColumn> := [];
    for k := 0 to |statements|
      invariant |list| == k && forall i :: 0 <= i < k ==> ParseAddColumn(statements[i]) == Some(list[i])
    {
      var statement := ParseAddColumn(statements[k]);
      if statement.None? {
        return None;
      }
      list := list + [statement.value];
    }
    parsed := Some(list);
  }

  /** An escaped identifier between quotes is read up to its closing quote. */
  lemma {:induction false} EscapedIsRead(name: string, rest: string)
    requires rest == "" || rest[0] != '"'
    ensures QuotedContent(Escape(name) + "\"" + rest) == Some(Identifier(Escape(name), rest))
    decreases |name|
  {
    EscapeNothing();
    if name != "" {
      EscapeFirst(name);
    }
    hide Escape;
    var text := Escape(name) + "\"" + rest;
    if name == "" {
      assert text == "\"" + rest && text[1..] == rest;
    } else {
      EscapedIsRead(name[1..], rest);
      var tail := Escape(name[1..]) + "\"" + rest;
      if name[0] == '"' {
        assert text == "\"\"" + tail && text[2..] == tail;
      } else {
        assert text == [name[0]] + tail && text[1..] == tail;
      }
    }
  }

  predicate IsKeyword(keyword: string) {
    keyword == "" || ('A' <= keyword[0] <= 'Z' && IsKeyword(keyword[1..]))
  }

  lemma LettersAreNotSpaces(c: char)
    ensures 'A' <= c <= 'Z' || c == '"' ==> !IsSpace(c)
  {
  }

  lemma {:induction false} KeywordRead(keyword: string, rest: string)
    requires IsKeyword(keyword)
    ensures AfterKeyword(keyword + rest, keyword) == Some(rest)
  {
    if keyword == "" {
      assert keyword + rest == rest;
    } else {
      assert (keyword + rest)[1..] == keyword[1..] + rest;
      KeywordRead(keyword[1..], rest);
    }
  }

  lemma SpaceRead(rest: string)
    requires rest == "" || !IsSpace(rest[0])
    ensures AfterSpaces(" " + rest) == Some(rest)
  {
    assert (" " + rest)[1..] == rest;
    assert SkipSpaces(" " + rest) == SkipSpaces(rest);
  }

  function ClauseText(first: string, second: string, name: string): (text: string) {
    first + " " + second + " \"" + Escape(name) + "\""
  }

  lemma ClauseRead(first: string, second: string, name: string, rest: string)
    requires IsKeyword(first) && IsKeyword(second) && second != "" && (rest == "" || rest[0] != '"')
    ensures Clause(ClauseText(first, second, name) + rest, first, second) == Some(Identifier(Escape(name), rest))
  {
    hide AfterKeyword, AfterSpaces, IsSpace, QuotedContent, Escape;
    LettersAreNotSpaces(second[0]);
    LettersAreNotSpaces('"');
    var quoted := "\"" + Escape(name) + "\"" + rest;
    var tail := second + (" " + quoted);
    assert ClauseText(first, second, name) + rest == first + (" " + tail);
    KeywordRead(first, " " + tail);
    SpaceRead(tail);
    KeywordRead(second, " " + quoted);
    SpaceRead(quoted);
    assert quoted[1..] == Escape(name) + "\"" + rest;
    EscapedIsRead(name, rest);
  }

  /** A generated statement is read back as its table and column, whatever characters their names contain. */
  lemma StatementIsRead(table: string, column: string, definition: string)
    requires definition == "" || IsSpace(definition[0])
    ensures ParseAddColumn(ClauseText("ALTER", "TABLE", table) + " " + ClauseText("ADD", "COLUMN", column) + definition)
            == Some(AddColumn(table, column))
  {
    hide Clause, ClauseText, AfterSpaces, IsKeyword, Escape, Unescape;
    LettersAreNotSpaces('A');
    KeywordsAreKeywords();
    var second := ClauseText("ADD", "COLUMN", column) + definition;
    var statement := ClauseText("ALTER", "TABLE", table) + " " + ClauseText("ADD", "COLUMN", column) + definition;
    assert statement == ClauseText("ALTER", "TABLE", table) + (" " + second);
    ClauseRead("ALTER", "TABLE", table, " " + second);
    ClauseStart(column, definition);
    SpaceRead(second);
    ClauseRead("ADD", "COLUMN", column, definition);
    UnescapeOfEscape(table);
    UnescapeOfEscape(column);
  }

  lemma KeywordsAreKeywords()
    ensures IsKeyword("ALTER") && IsKeyword("TABLE") && IsKeyword("ADD") && IsKeyword("COLUMN")
  {
  }

  lemma ClauseStart(column: string, definition: string)
    ensures var text := ClauseText("ADD", "COLUMN", column) + definition; text != "" && text[0] == 'A'
  {
  }

  // ---------------------------------------------------------------------------------------------
  // Exactly which statements are read

  /** The word spells the keyword, in whatever case. */
  predicate Spells(word: string, keyword: string) {
    |word| == |keyword| && forall i :: 0 <= i < |word| ==> Upper(word[i]) == keyword[i]
  }

  predicate AllSpaces(text: string) {
    text != "" && forall i :: 0 <= i < |text| ==> IsSpace(text[i])
  }

  /** One clause as written: two words, a gap after each, and the content between the quotes. */
  datatype Written = Written(first: string, gap: string, second: string, lastGap: string, content: string)
  {
    function Text(): (text: string) {
      first + gap + second + lastGap + "\"" + content + "\""
    }

    predicate IsClause(one: string, other: string) {
      Spells(first, one) && AllSpaces(gap) && Spells(second, other) && AllSpaces(lastGap) && Paired(content)
    }
  }

  lemma {:induction false} KeywordIff(text: string, keyword: string)
    ensures AfterKeyword(text, keyword)
            == if |keyword| <= |text| && Spells(text[..|keyword|], keyword) then Some(text[|keyword|..]) else None
  {
    if keyword == "" {
      assert text[0..] == text;
    } else if text != "" {
      KeywordIff(text[1..], keyword[1..]);
      if |keyword| <= |text| {
        assert text[..|keyword|] == [text[0]] + text[1..][..|keyword| - 1];
        assert text[|keyword|..] == text[1..][|keyword| - 1..];
        if Spells(text[..|keyword|], keyword) {
          forall i | 0 <= i < |keyword| - 1
            ensures Upper(text[1..][..|keyword| - 1][i]) == keyword[1..][i]
          {
            assert text[..|keyword|][i + 1] == text[1..][..|keyword| - 1][i];
          }
        }
      }
    }
  }

  lemma {:induction false} SkippedAre(text: string) returns (n: nat)
    ensures n <= |text| && SkipSpaces(text) == text[n..]
    ensures (forall i :: 0 <= i < n ==> IsSpace(text[i])) && (n < |text| ==> !IsSpace(text[n]))
  {
    if text != "" && IsSpace(text[0]) {
      var rest := SkippedAre(text[1..]);
      n := rest + 1;
      assert text[1..][rest..] == text[n..];
      assert forall i :: 0 < i < n ==> text[i] == text[1..][i - 1];
    } else {
      n := 0;
    }
  }

  /** What follows a gap, exactly. */
  lemma GapIff(text: string) returns (n: nat)
    ensures n <= |text| && (AfterSpaces(text).Some? <==> n > 0)
    ensures n > 0 ==> AfterSpaces(text) == Some(text[n..]) && AllSpaces(text[..n])
    ensures n < |text| ==> !IsSpace(text[n])
  {
    n := SkippedAre(text);
  }

  lemma {:induction false} GapRead(gap: string, rest: string)
    requires AllSpaces(gap) && (rest == "" || !IsSpace(rest[0]))
    ensures AfterSpaces(gap + rest) == Some(rest)
  {
    var n := SkippedAre(gap + rest);
    assert n == |gap| by {
      assert forall i :: 0 <= i < |gap| ==> (gap + rest)[i] == gap[i];
      assert rest != "" ==> (gap + rest)[|gap|] == rest[0];
    }
    assert (gap + rest)[|gap|..] == rest;
  }

  lemma {:induction false} ContentOf(text: string)
    requires QuotedContent(text).Some?
    ensures var Identifier(content, rest) := QuotedContent(text).value;
            text == content + "\"" + rest && Paired(content) && (rest == "" || rest[0] != '"')
    decreases |text|
  {
    if text[0] == '"' && |text| > 1 && text[1] == '"' {
      ContentOf(text[2..]);
      var Identifier(content, rest) := QuotedContent(text[2..]).value;
      assert text == "\"\"" + text[2..];
      assert ("\"\"" + content)[2..] == content;
    } else if text[0] != '"' {
      ContentOf(text[1..]);
      var Identifier(content, rest) := QuotedContent(text[1..]).value;
      assert text == [text[0]] + text[1..];
      assert ([text[0]] + content)[1..] == content;
    }
  }

  lemma {:induction false} ContentRead(content: string, rest: string)
    requires Paired(content) && (rest == "" || rest[0] != '"')
    ensures QuotedContent(content + "\"" + rest) == Some(Identifier(content, rest))
    decreases |content|
  {
    var text := content + "\"" + rest;
    if content == "" {
      assert text[1..] == rest;
    } else if content[0] == '"' {
      ContentRead(content[2..], rest);
      assert text[2..] == content[2..] + "\"" + rest && content == "\"\"" + content[2..];
    } else {
      ContentRead(content[1..], rest);
      assert text[1..] == content[1..] + "\"" + rest && content == [content[0]] + content[1..];
    }
  }

  lemma Reassembled(written: Written, rest: string)
    ensures written.Text() + rest
            == written.first + (written.gap + (written.second + (written.lastGap
                                                                 + ("\"" + (written.content + "\"" + rest)))))
    ensures written.first != "" ==> (written.Text() + rest)[0] == written.first[0]
  {
  }

  lemma WordWasWritten(text: string, keyword: string) returns (word: string, gap: string, rest: string)
    requires AfterWord(text, keyword).Some?
    ensures AfterWord(text, keyword) == Some(rest) && text == word + (gap + rest)
    ensures Spells(word, keyword) && AllSpaces(gap)
  {
    hide AfterKeyword, AfterSpaces, Spells, AllSpaces;
    KeywordIff(text, keyword);
    var tail := text[|keyword|..];
    var n := GapIff(tail);
    word, gap, rest := text[..|keyword|], tail[..n], tail[n..];
    assert tail == gap + rest;
  }

  lemma WrittenWordIsRead(word: string, gap: string, rest: string, keyword: string)
    requires Spells(word, keyword) && AllSpaces(gap) && (rest == "" || !IsSpace(rest[0]))
    ensures AfterWord(word + (gap + rest), keyword) == Some(rest)
  {
    hide AfterKeyword, AfterSpaces, AllSpaces, IsSpace;
    var text := word + (gap + rest);
    KeywordIff(text, keyword);
    assert |word| == |keyword|;
    assert text[..|keyword|] == word && text[|keyword|..] == gap + rest;
    GapRead(gap, rest);
  }

  /** A clause that is read was written as one. */
  lemma ClauseWasWritten(text: string, one: string, other: string) returns (written: Written)
    requires Clause(text, one, other).Some?
    ensures written.IsClause(one, other) && text == written.Text() + Clause(text, one, other).value.rest
    ensures Clause(text, one, other).value.name == written.content
    ensures Clause(text, one, other).value.rest == "" || Clause(text, one, other).value.rest[0] != '"'
  {
    hide AfterWord, QuotedContent, Paired, Spells, AllSpaces, Written.Text;
    var first, gap, b := WordWasWritten(text, one);
    var second, lastGap, d := WordWasWritten(b, other);
    ContentOf(d[1..]);
    var Identifier(content, rest) := QuotedContent(d[1..]).value;
    written := Written(first, gap, second, lastGap, content);
    Reassembled(written, rest);
    assert d == "\"" + d[1..];
    assert d[1..] == content + "\"" + rest;
  }

  /** A clause that was written as one is read, whatever follows it but a quote. */
  lemma WrittenClauseIsRead(written: Written, one: string, other: string, rest: string)
    requires written.IsClause(one, other) && IsKeyword(other) && other != "" && (rest == "" || rest[0] != '"')
    ensures Clause(written.Text() + rest, one, other) == Some(Identifier(written.content, rest))
  {
    LettersAreNotSpaces('"');
    SpelledIsNoSpace(written.second, other);
    hide AfterWord, QuotedContent, Paired, Spells, AllSpaces, IsSpace, Written.Text;
    Reassembled(written, rest);
    var d := "\"" + (written.content + "\"" + rest);
    var b := written.second + (written.lastGap + d);
    WrittenWordIsRead(written.first, written.gap, b, one);
    WrittenWordIsRead(written.second, written.lastGap, d, other);
    assert d[1..] == written.content + "\"" + rest;
    ContentRead(written.content, rest);
  }

  lemma SpelledIsNoSpace(word: string, keyword: string)
    requires Spells(word, keyword) && IsKeyword(keyword) && keyword != ""
    ensures word != "" && !IsSpace(word[0])
  {
    assert Upper(word[0]) == keyword[0];
  }

  /** The statement alters the first name and adds the second, and what follows is set off by a space. */
  ghost predicate AddsColumn(statement: string, table: Written, gap: string, column: Written, tail: string) {
    && table.IsClause("ALTER", "TABLE") && AllSpaces(gap) && column.IsClause("ADD", "COLUMN")
    && (tail == "" || IsSpace(tail[0]))
    && statement == table.Text() + gap + column.Text() + tail
  }

  /** Every statement that was written as an ADD COLUMN is read as its table and column. */
  lemma WrittenIsRead(statement: string, table: Written, gap: string, column: Written, tail: string)
    requires AddsColumn(statement, table, gap, column, tail)
    ensures ParseAddColumn(statement) == Some(AddColumn(Unescape(table.content), Unescape(column.content)))
  {
    hide Clause, AfterSpaces, Unescape, IsSpace, Written.Text, Written.IsClause, AllSpaces;
    KeywordsAreKeywords();
    ClauseStartsWithWord(column, "ADD", "COLUMN");
    GapIsNoQuote(gap);
    TailIsNoQuote(tail);
    var second := column.Text() + tail;
    Reassembled(column, tail);
    assert statement == table.Text() + (gap + second);
    WrittenClauseIsRead(table, "ALTER", "TABLE", gap + second);
    GapRead(gap, second);
    WrittenClauseIsRead(column, "ADD", "COLUMN", tail);
  }

  lemma ClauseStartsWithWord(written: Written, one: string, other: string)
    requires written.IsClause(one, other) && IsKeyword(one) && one != ""
    ensures written.first != "" && !IsSpace(written.first[0])
  {
    SpelledIsNoSpace(written.first, one);
  }

  lemma GapIsNoQuote(gap: string)
    requires AllSpaces(gap)
    ensures gap != "" && gap[0] != '"'
  {
  }

  lemma TailIsNoQuote(tail: string)
    ensures tail != "" && IsSpace(tail[0]) ==> tail[0] != '"'
  {
  }

  /** And no other statement is read. */
  lemma ReadWasWritten(statement: string)
    returns (table: Written, gap: string, column: Written, tail: string)
    requires ParseAddColumn(statement).Some?
    ensures AddsColumn(statement, table, gap, column, tail)
    ensures ParseAddColumn(statement) == Some(AddColumn(Unescape(table.content), Unescape(column.content)))
  {
    hide Clause, AfterSpaces, Unescape, IsSpace, Written.Text;
    table := ClauseWasWritten(statement, "ALTER", "TABLE");
    var rest := Clause(statement, "ALTER", "TABLE").value.rest;
    var n := GapIff(rest);
    gap := rest[..n];
    var second := rest[n..];
    column := ClauseWasWritten(second, "ADD", "COLUMN");
    tail := Clause(second, "ADD", "COLUMN").value.rest;
    assert rest == gap + second;
  }
}
