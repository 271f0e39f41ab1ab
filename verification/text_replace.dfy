/** Replacing every occurrence of one character by a text. */
module TextReplace {

  function ReplaceAll(text: string, c: char, replacement: string): (result: string) {
    if text == "" then ""
    else (if text[0] == c then replacement else [text[0]]) + ReplaceAll(text[1..], c, replacement)
  }

  lemma {:induction false} ReplaceJoined(a: string, b: string, c: char, replacement: string)
    ensures ReplaceAll(a + b, c, replacement) == ReplaceAll(a, c, replacement) + ReplaceAll(b, c, replacement)
  {
    if a == "" {
      assert a + b == b;
    } else {
      assert (a + b)[1..] == a[1..] + b;
      ReplaceJoined(a[1..], b, c, replacement);
    }
  }
}
