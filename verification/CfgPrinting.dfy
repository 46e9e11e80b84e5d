/** Text written out by character code and read back: what each escape stands for. */
module CfgPrinting {
  import opened CfgGrammar

  /** Line feed, carriage return, tab and backspace by letter; a backslash before quotes and backslashes. */
  function PrintChar(c: char): string {
    if c as int == 10 then ['\\', 'n']
    else if c as int == 13 then ['\\', 'r']
    else if c as int == 9 then ['\\', 't']
    else if c as int == 8 then ['\\', 'b']
    else if c as int == 34 || c as int == 39 || c as int == 92 then ['\\', c]
    else [c]
  }

  function Print(text: string): string {
    if text == "" then "" else PrintChar(text[0]) + Print(text[1..])
  }

  /** One printed character of a string is read as that character. */
  lemma CharacterRead(c: char, tail: string, acc: string)
    ensures StringBody(PrintChar(c) + tail, acc) == StringBody(tail, acc + [c])
  {
    var s := PrintChar(c) + tail;
    assert s[|PrintChar(c)|..] == tail;
  }

  lemma {:induction false} BodyReadsBack(text: string, rest: string, acc: string)
    ensures StringBody(Print(text) + ("\"" + rest), acc) == Match(acc + text, rest)
    decreases |text|
  {
    var end := "\"" + rest;
    if text == "" {
      assert Print(text) + end == end && end[1..] == rest && acc + text == acc;
    } else {
      var c, more := text[0], text[1..];
      assert Print(text) + end == PrintChar(c) + (Print(more) + end);
      CharacterRead(c, Print(more) + end, acc);
      hide StringBody, PrintChar;
      BodyReadsBack(more, rest, acc + [c]);
      assert acc + [c] + more == acc + text;
    }
  }

  /** Any text, printed between quotes, is read back as itself, and what follows is left. */
  lemma StringReadsBack(text: string, rest: string)
    ensures ParseString("\"" + Print(text) + "\"" + rest) == Match(text, rest)
  {
    hide StringBody, Print;
    BodyReadsBack(text, rest, "");
    assert "" + text == text;
    var s := "\"" + Print(text) + "\"" + rest;
    assert s == ['\"'] + (Print(text) + ("\"" + rest));
  }

  /** So is any character in a character literal. */
  lemma CharacterReadsBack(c: char, rest: string)
    ensures ParseCharLiteral("'" + PrintChar(c) + "'" + rest) == Match(c, rest)
  {
    var s := "'" + PrintChar(c) + "'" + rest;
    assert s[1 + |PrintChar(c)|..] == "'" + rest;
    assert ("'" + rest)[1..] == rest;
  }

  /** As a number a literal is its character code from 1 to 255; a NUL in quotes is passed over for an integer. */
  lemma NumberOfCharacter(c: char, rest: string)
    requires c as int < 256
    ensures ParseNumber("'" + PrintChar(c) + "'" + rest)
         == if c as int == 0 then ParseInt(rest) else Match(c as int, rest)
  {
    hide PrintChar, ParseCharLiteral, ParseInt;
    CharacterReadsBack(c, rest);
  }

  /** A backslash before any other character ends the program. */
  lemma OtherEscapes(c: char, rest: string, acc: string)
    requires c as int !in {34, 39, 92, 110, 114, 116, 98}
    ensures StringBody(['\\', c] + rest, acc) == Fatal && ParseCharLiteral(['\'', '\\', c] + rest) == Fatal
  {
  }

  // ----- characters and digits, by code -----

  /** Blanks, letters, digits and names of the C locale. */
  lemma ClassesByCode(c: char)
    ensures IsSpace(c) <==> c as int == 32 || 9 <= c as int <= 13
    ensures IsAlpha(c) <==> 65 <= c as int <= 90 || 97 <= c as int <= 122
    ensures IsDigit(c) <==> 48 <= c as int <= 57
    ensures IsNameChar(c) <==> IsAlpha(c) || IsDigit(c) || c as int == 95
  {
  }

  /** The digits of every radix up to sixteen, upper and lower case. */
  lemma DigitsByValue(d: nat)
    requires d < 16
    ensures MapDigit("0123456789abcdef"[d]) == d == MapDigit("0123456789ABCDEF"[d])
  {
  }

  lemma NoOtherDigits(c: char)
    ensures c !in "0123456789abcdefABCDEF" ==> MapDigit(c) < 0
  {
    if MapDigit(c) >= 0 {
      var d := MapDigit(c);
      assert "0123456789abcdef"[d] == c || "0123456789ABCDEF"[d] == c;
    }
  }
}
