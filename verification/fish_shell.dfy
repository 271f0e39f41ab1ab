/** Fish single quoting and the reading that undoes it. */
module FishShell {
  import opened Wrappers
  import opened TextReplace

  /** Backslashes doubled first, then single quotes escaped. */
  function Escape(value: string): (escaped: string) {
    ReplaceAll(ReplaceAll(value, '\\', "\\\\"), '\'', "\\'")
  }

  function Quoted(value: string): (token: string) {
    "'" + Escape(value) + "'"
  }

  datatype Reading = Reading(value: string, rest: string)

  /** Inside single quotes: `\\` and `\'` stand for the second character, any other backslash for itself. */
  function ReadQuoted(text: string): (read: Option<Reading>)
    decreases |text|
  {
    if text == "" then None
    else if text[0] == '\'' then Some(Reading("", text[1..]))
    else if text[0] == '\\' && |text| > 1 && text[1] in "\\'" then Prepended(text[1], ReadQuoted(text[2..]))
    else Prepended(text[0], ReadQuoted(text[1..]))
  }

  function Prepended(c: char, read: Option<Reading>): (result: Option<Reading>) {
    match read case None => None case Some(Reading(value, rest)) => Some(Reading([c] + value, rest))
  }

  function EscapedChar(c: char): (text: string) {
    if c == '\\' then "\\\\" else if c == '\'' then "\\'" else [c]
  }

  /** The two replacements together escape each character on its own. */
  lemma EscapeFirst(value: string)
    requires value != ""
    ensures Escape(value) == EscapedChar(value[0]) + Escape(value[1..])
  {
    var first := if value[0] == '\\' then "\\\\" else [value[0]];
    ReplaceJoined(first, ReplaceAll(value[1..], '\\', "\\\\"), '\'', "\\'");
    assert ReplaceAll("", '\'', "\\'") == "";
    if value[0] == '\\' {
      assert "\\\\"[1..] == "\\" && "\\"[1..] == "";
      assert ReplaceAll("\\", '\'', "\\'") == "\\" + "";
      assert ReplaceAll("\\\\", '\'', "\\'") == "\\" + "\\";
    } else {
      assert [value[0]][1..] == "";
    }
  }

  lemma EscapeNothing()
    ensures Escape("") == ""
  {
  }

  /** A quoted value is read back exactly, and reading stops right after it. */
  lemma {:induction false} QuotedIsRead(value: string, rest: string)
    ensures ReadQuoted(Escape(value) + "'" + rest) == Some(Reading(value, rest))
    decreases |value|
  {
    EscapeNothing();
    hide Escape;
    if value == "" {
      assert Escape(value) + "'" + rest == "'" + rest;
      assert ("'" + rest)[1..] == rest;
    } else {
      EscapeFirst(value);
      var tail := Escape(value[1..]) + "'" + rest;
      var text := Escape(value) + "'" + rest;
      QuotedIsRead(value[1..], rest);
      assert text == EscapedChar(value[0]) + tail;
      if value[0] in "\\'" {
        assert text[0] == '\\' && text[1] == value[0] && text[2..] == tail;
      } else {
        assert text[0] == value[0] && text[1..] == tail;
      }
      assert [value[0]] + value[1..] == value;
    }
  }
}
