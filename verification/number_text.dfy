/** Numbers printed in base ten or sixteen, and read back. */
module NumberText {

  const DIGITS := "0123456789abcdef"

  datatype Base = Decimal | Hexadecimal

  function DigitOf(c: char): (digit: nat) {
    if '0' <= c <= '9' then c as nat - '0' as nat
    else if 'a' <= c <= 'f' then c as nat - 'a' as nat + 10
    else 0
  }

  /** Everything but the last digit of a number. */
  function Leading(n: nat, base: Base): (rest: nat)
    ensures n > 0 ==> rest < n
  {
    if base.Decimal? then n / 10 else n / 16
  }

  function LastDigit(n: nat, base: Base): (digit: nat)
    ensures digit < 16
  {
    if base.Decimal? then n % 10 else n % 16
  }

  function Appended(rest: nat, digit: nat, base: Base): (n: nat) {
    if base.Decimal? then rest * 10 + digit else rest * 16 + digit
  }

  /** The digits of `n`, most significant first and without leading zeros. */
  function Print(n: nat, base: Base): (text: string)
    ensures text != ""
    decreases n
  {
    if Leading(n, base) == 0 then [DIGITS[LastDigit(n, base)]]
    else Print(Leading(n, base), base) + [DIGITS[LastDigit(n, base)]]
  }

  function Read(text: string, base: Base): (n: nat) {
    if text == "" then 0 else Appended(Read(text[..|text| - 1], base), DigitOf(text[|text| - 1]), base)
  }

  lemma {:induction false} ReadOfPrint(n: nat, base: Base)
    ensures Read(Print(n, base), base) == n
    decreases n
  {
    var rest, digit := Leading(n, base), LastDigit(n, base);
    assert DigitOf(DIGITS[digit]) == digit;
    assert Appended(rest, digit, base) == n;
    var text := Print(n, base);
    if rest == 0 {
      assert text[..|text| - 1] == "";
    } else {
      ReadOfPrint(rest, base);
      assert text[..|text| - 1] == Print(rest, base);
    }
  }

  /** The digits printed are digits, so no separator hides among them. */
  lemma {:induction false} PrintIsDigits(n: nat, base: Base)
    ensures forall i :: 0 <= i < |Print(n, base)| ==> Print(n, base)[i] in DIGITS
    decreases n
  {
    assert DIGITS[LastDigit(n, base)] in DIGITS;
    if Leading(n, base) != 0 {
      PrintIsDigits(Leading(n, base), base);
    }
  }

  /** Different numbers print differently. */
  lemma PrintInjective(a: nat, b: nat, base: Base)
    requires Print(a, base) == Print(b, base)
    ensures a == b
  {
    ReadOfPrint(a, base);
    ReadOfPrint(b, base);
  }

  /** Numbers printed with a separator between them. */
  function PrintJoined(numbers: seq<nat>, base: Base, separator: char): (text: string) {
    if numbers == [] then ""
    else if |numbers| == 1 then Print(numbers[0], base)
    else Print(numbers[0], base) + [separator] + PrintJoined(numbers[1..], base, separator)
  }

  function PrintAll(numbers: seq<nat>, base: Base): (texts: seq<string>)
    ensures |texts| == |numbers|
  {
    if numbers == [] then [] else PrintAll(numbers[..|numbers| - 1], base) + [Print(numbers[|numbers| - 1], base)]
  }

  function Join(parts: seq<string>, separator: char): (text: string) {
    if parts == [] then ""
    else if |parts| == 1 then parts[0]
    else parts[0] + [separator] + Join(parts[1..], separator)
  }

  lemma {:induction false} PrintAllFromFront(numbers: seq<nat>, base: Base)
    requires numbers != []
    ensures PrintAll(numbers, base) == [Print(numbers[0], base)] + PrintAll(numbers[1..], base)
  {
    if |numbers| > 1 {
      var init := numbers[..|numbers| - 1];
      PrintAllFromFront(init, base);
      assert init[1..] == numbers[1..][..|numbers| - 2];
    }
  }

  lemma {:induction false} JoinOfPrinted(numbers: seq<nat>, base: Base, separator: char)
    ensures Join(PrintAll(numbers, base), separator) == PrintJoined(numbers, base, separator)
  {
    if numbers != [] {
      PrintAllFromFront(numbers, base);
      JoinOfPrinted(numbers[1..], base, separator);
      assert PrintAll(numbers, base)[1..] == PrintAll(numbers[1..], base);
    }
  }

  /** The text before the first separator. */
  function Before(text: string, separator: char): (part: string) {
    if text == "" || text[0] == separator then "" else [text[0]] + Before(text[1..], separator)
  }

  lemma {:induction false} BeforeSeparator(a: string, x: string, separator: char)
    requires separator !in a
    requires x == "" || x[0] == separator
    ensures Before(a + x, separator) == a
  {
    if a == "" {
      assert a + x == x;
    } else {
      assert (a + x)[1..] == a[1..] + x;
      BeforeSeparator(a[1..], x, separator);
    }
  }

  /** What follows the first number of a joined list. */
  function Rest(numbers: seq<nat>, base: Base, separator: char): (text: string)
    requires numbers != []
  {
    if |numbers| == 1 then "" else [separator] + PrintJoined(numbers[1..], base, separator)
  }

  /** The first number is the text before the first separator, and the rest follows. */
  lemma FirstOfJoined(numbers: seq<nat>, base: Base, separator: char)
    requires numbers != [] && separator !in DIGITS
    ensures var text, first := PrintJoined(numbers, base, separator), Print(numbers[0], base);
            Before(text, separator) == first && first <= text && text[|first|..] == Rest(numbers, base, separator)
    ensures PrintJoined(numbers, base, separator) != ""
  {
    hide Print;
    PrintIsDigits(numbers[0], base);
    var first, rest := Print(numbers[0], base), Rest(numbers, base, separator);
    assert PrintJoined(numbers, base, separator) == first + rest;
    BeforeSeparator(first, rest, separator);
  }

  lemma RestDetermines(a: seq<nat>, b: seq<nat>, base: Base, separator: char)
    requires a != [] && b != [] && Rest(a, base, separator) == Rest(b, base, separator)
    ensures |a| == 1 <==> |b| == 1
    ensures PrintJoined(a[1..], base, separator) == PrintJoined(b[1..], base, separator)
  {
    hide Print;
    assert |a| == 1 <==> Rest(a, base, separator) == "";
    assert |b| == 1 <==> Rest(b, base, separator) == "";
    if |a| > 1 {
      assert Rest(a, base, separator)[1..] == PrintJoined(a[1..], base, separator);
      assert Rest(b, base, separator)[1..] == PrintJoined(b[1..], base, separator);
    }
  }

  /** The joined text determines the numbers. */
  lemma {:induction false} JoinedInjective(a: seq<nat>, b: seq<nat>, base: Base, separator: char)
    requires separator !in DIGITS
    requires PrintJoined(a, base, separator) == PrintJoined(b, base, separator)
    ensures a == b
  {
    hide Print, Rest, Before;
    if a != [] {
      FirstOfJoined(a, base, separator);
    }
    if b != [] {
      FirstOfJoined(b, base, separator);
    }
    if a != [] && b != [] {
      PrintInjective(a[0], b[0], base);
      RestDetermines(a, b, base, separator);
      JoinedInjective(a[1..], b[1..], base, separator);
      assert a == [a[0]] + a[1..] && b == [b[0]] + b[1..];
    }
  }
}
