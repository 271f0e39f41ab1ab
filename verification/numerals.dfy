/** What a printed number is: its digits, their value, and the pieces between separators. */
module Numerals {
  import opened NumberText

  /** The value of base-ten digits. */
  function DecimalValue(text: string): (n: int) {
    if text == "" then 0 else DecimalValue(text[..|text| - 1]) * 10 + (text[|text| - 1] as int - '0' as int)
  }

  /** The value of lower-case base-sixteen digits. */
  function HexadecimalValue(text: string): (n: int) {
    if text == "" then 0
    else
      var last := text[|text| - 1];
      HexadecimalValue(text[..|text| - 1]) * 16
      + if last <= '9' then last as int - '0' as int else last as int - 'a' as int + 10
  }

  /** `text` is `n` in base ten, without leading zeros. */
  predicate IsDecimal(text: string, n: nat) {
    && text != "" && (|text| > 1 ==> text[0] != '0')
    && (forall i :: 0 <= i < |text| ==> '0' <= text[i] <= '9')
    && DecimalValue(text) == n
  }

  /** `text` is `n` in base sixteen, in lower case and without leading zeros. */
  predicate IsHexadecimal(text: string, n: nat) {
    && text != "" && (|text| > 1 ==> text[0] != '0')
    && (forall i :: 0 <= i < |text| ==> '0' <= text[i] <= '9' || 'a' <= text[i] <= 'f')
    && HexadecimalValue(text) == n
  }

  /** The pieces of a text between separators. */
  function Pieces(text: string, separator: char): (pieces: seq<string>)
    ensures pieces != []
  {
    if text == "" then [""]
    else
      var rest := Pieces(text[1..], separator);
      if text[0] == separator then [""] + rest else [[text[0]] + rest[0]] + rest[1..]
  }

  // ---------------------------------------------------------------------------------------------
  // What is printed

  lemma DigitsAre(digit: nat)
    ensures digit < 10 ==> '0' <= DIGITS[digit] <= '9' && DIGITS[digit] as int - '0' as int == digit
    ensures 10 <= digit < 16 ==> 'a' <= DIGITS[digit] <= 'f' && DIGITS[digit] as int - 'a' as int + 10 == digit
    ensures digit < 16 ==> (DIGITS[digit] == '0' <==> digit == 0)
  {
  }

  lemma DecimalAppended(front: string, m: nat, c: char)
    requires '0' <= c <= '9' && ((front == "" && m == 0) || (IsDecimal(front, m) && front[0] != '0'))
    ensures IsDecimal(front + [c], 10 * m + (c as int - '0' as int)) && (m > 0 || c != '0' ==> (front + [c])[0] != '0')
  {
    var text := front + [c];
    assert text[..|text| - 1] == front && text[|text| - 1] == c;
    assert DecimalValue(front) == m;
  }

  lemma HexadecimalAppended(front: string, m: nat, c: char)
    requires ('0' <= c <= '9' || 'a' <= c <= 'f')
    requires (front == "" && m == 0) || (IsHexadecimal(front, m) && front[0] != '0')
    ensures var digit := if c <= '9' then c as int - '0' as int else c as int - 'a' as int + 10;
            IsHexadecimal(front + [c], 16 * m + digit) && (m > 0 || c != '0' ==> (front + [c])[0] != '0')
  {
    var text := front + [c];
    assert text[..|text| - 1] == front && text[|text| - 1] == c;
    assert HexadecimalValue(front) == m;
  }

  lemma {:induction false} PrintIsDecimal(n: nat)
    ensures IsDecimal(Print(n, Decimal), n) && (n > 0 ==> Print(n, Decimal)[0] != '0')
    decreases n
  {
    hide IsDecimal;
    if n < 10 {
      DigitsAre(n);
      DecimalAppended("", 0, DIGITS[n]);
      assert "" + [DIGITS[n]] == [DIGITS[n]];
    } else {
      PrintIsDecimal(n / 10);
      DigitsAre(n % 10);
      DecimalAppended(Print(n / 10, Decimal), n / 10, DIGITS[n % 10]);
    }
  }

  lemma {:induction false} PrintIsHexadecimal(n: nat)
    ensures IsHexadecimal(Print(n, Hexadecimal), n) && (n > 0 ==> Print(n, Hexadecimal)[0] != '0')
    decreases n
  {
    hide IsHexadecimal;
    if n < 16 {
      DigitsAre(n);
      HexadecimalAppended("", 0, DIGITS[n]);
      assert "" + [DIGITS[n]] == [DIGITS[n]];
    } else {
      PrintIsHexadecimal(n / 16);
      DigitsAre(n % 16);
      HexadecimalAppended(Print(n / 16, Hexadecimal), n / 16, DIGITS[n % 16]);
    }
  }

  lemma {:induction false} PieceAtSeparator(piece: string, rest: string, separator: char)
    requires separator !in piece
    ensures Pieces(piece, separator) == [piece]
    ensures Pieces(piece + [separator] + rest, separator) == [piece] + Pieces(rest, separator)
  {
    var text := piece + [separator] + rest;
    if piece == "" {
      assert text[1..] == rest;
    } else {
      assert piece == [piece[0]] + piece[1..];
      assert text[1..] == piece[1..] + [separator] + rest;
      PieceAtSeparator(piece[1..], rest, separator);
    }
  }

  /** The pieces of joined text are the parts that were joined. */
  lemma {:induction false} PiecesOfJoined(numbers: seq<nat>, base: Base, separator: char)
    requires numbers != [] && separator !in DIGITS
    ensures var pieces := Pieces(PrintJoined(numbers, base, separator), separator);
            |pieces| == |numbers| && forall i :: 0 <= i < |numbers| ==> pieces[i] == Print(numbers[i], base)
  {
    hide Print, Pieces;
    PrintIsDigits(numbers[0], base);
    var first := Print(numbers[0], base);
    if |numbers| == 1 {
      PieceAtSeparator(first, "", separator);
    } else {
      PiecesOfJoined(numbers[1..], base, separator);
      PieceAtSeparator(first, PrintJoined(numbers[1..], base, separator), separator);
    }
  }
}
