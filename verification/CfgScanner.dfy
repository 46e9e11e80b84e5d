/** The parser's character layer and tokens: one file, read a character at a time with one character of pushback. */
module CfgScanner {
  import opened Options
  import opened CfgGrammar

  /** What a parsing function does: end the program, find nothing to parse, or return what it found. */
  datatype Outcome<+T> = Exit | Absent | Got(value: T)

  /** Where the parser says it is, and the column it left when it last went to a new line. */
  datatype Position = Position(line: int, col: int)

  /** The position after reading s from position start. */
  function Counted(start: Position, s: string): Position {
    if s == "" then start
    else
      var before := Counted(start, s[..|s| - 1]);
      if s[|s| - 1] == '\n' then Position(before.line + 1, 0) else Position(before.line, before.col + 1)
  }

  class Scanner {
    const text: string
    ghost const start: Position
    var cursor: nat
    var pushed: Option<char>
    var line: int
    var col: int
    var lastCol: int

    /** The characters the parser has taken and not given back. */
    ghost function Taken(): (n: int)
      reads this
    {
      if pushed.Some? then cursor - 1 else cursor
    }

    /** The position always is the one counted over the characters taken. */
    ghost predicate Valid()
      reads this
    {
      && cursor <= |text|
      && (pushed.Some? ==> cursor > 0 && pushed.value == text[cursor - 1])
      && Position(line, col) == Counted(start, text[..Taken()])
      && (pushed.None? && cursor > 0 && text[cursor - 1] == '\n' ==> lastCol == Counted(start, text[..cursor - 1]).col)
    }

    /** The last thing that happened was reading the first character of here. */
    ghost predicate JustRead(here: string)
      reads this
    {
      Valid() && pushed.None? && here != "" && cursor > 0 && text[cursor - 1..] == here
    }

    ghost function Rest(): string
      requires Valid()
      reads this
    {
      text[Taken()..]
    }

    /** The position, by what is left to read. */
    lemma PositionByRest()
      requires Valid()
      ensures |Rest()| <= |text| && Position(line, col) == Counted(start, text[..|text| - |Rest()|])
    {
    }

    /** The position carries on from the file read before. */
    constructor (text: string, line: int, col: int, lastCol: int)
      ensures Valid() && Rest() == text && this.text == text && start == Position(line, col)
    {
      this.text, start, cursor, pushed := text, Position(line, col), 0, None;
      this.line, this.col, this.lastCol := line, col, lastCol;
    }

    method Getc() returns (c: Option<char>)
      requires Valid()
      modifies `cursor, `pushed
      ensures cursor <= |text| && pushed.None? && cursor == old(Taken()) + (if c.Some? then 1 else 0)
      ensures c == if old(Rest()) == "" then None else Some(old(Rest())[0])
    {
      if pushed.Some? {
        c, pushed := pushed, None;
      } else if cursor < |text| {
        c, cursor := Some(text[cursor]), cursor + 1;
      } else {
        c := None;
      }
    }

    method AcceptRawCharOrEof() returns (c: Option<char>)
      requires Valid()
      modifies this
      ensures Valid()
      ensures c == if old(Rest()) == "" then None else Some(old(Rest())[0])
      ensures Rest() == if old(Rest()) == "" then "" else old(Rest())[1..]
      ensures c.Some? ==> JustRead(old(Rest()))
    {
      ghost var taken := Taken();
      c := Getc();
      if c.Some? {
        assert text[..cursor][..taken] == text[..taken];
        if c.value == '\n' {
          line := line + 1;
          lastCol := col;
          col := 0;
        } else {
          col := col + 1;
        }
      }
    }

    method AcceptRawChar() returns (c: Option<char>)
      requires Valid()
      modifies this
      ensures Valid()
      ensures c == if old(Rest()) == "" then None else Some(old(Rest())[0])
      ensures Rest() == if old(Rest()) == "" then "" else old(Rest())[1..]
      ensures c.Some? ==> JustRead(old(Rest()))
    {
      c := AcceptRawCharOrEof();
    }

    /** Only the character just read is ever given back, and never two in a row. */
    method ReturnRawChar(c: char, ghost here: string)
      requires JustRead(here) && c == here[0]
      modifies this
      ensures Valid() && Rest() == here
    {
      pushed := Some(c);
      assert text[..cursor][..cursor - 1] == text[..cursor - 1];
      if c == '\n' {
        line := line - 1;
        col := lastCol;
      } else {
        col := col - 1;
      }
    }

    method ExpectChar(c: char) returns (ok: bool)
      requires Valid()
      modifies this
      ensures Valid() && (ok <==> old(Rest()) != "" && old(Rest())[0] == c)
      ensures ok ==> Rest() == old(Rest())[1..]
    {
      var in_ := AcceptRawChar();
      ok := in_ == Some(c);
    }

    /** Some(true) and the character taken, or Some(false) and nothing taken; None at the end of the file. */
    method AcceptChar(c: char) returns (r: Option<bool>)
      requires Valid()
      modifies this
      ensures Valid() && r == (if old(Rest()) == "" then None else Some(old(Rest())[0] == c))
      ensures r == Some(true) ==> Rest() == old(Rest())[1..]
      ensures r == Some(false) ==> Rest() == old(Rest())
    {
      var in_ := AcceptRawChar();
      if in_.None? {
        return None;
      }
      if in_.value != c {
        ReturnRawChar(in_.value, old(Rest()));
        return Some(false);
      }
      return Some(true);
    }
  }
}
