/** The program loader of the Rust engine (rust_implementation/src/program.rs),
    from the lines of an already-read program file to a header address and a
    list of instruction words. */
module Program {
  import opened Bitwise
  import opened Optional
  import opened Errors

  /** A parsed program: the address execution starts at and the words to load there.
      `program_counter_start` and `instructions` are this datatype's two fields. */
  datatype Program = Program(header: int, instructions: seq<int>)

  /** The header is an `Address` and every instruction an `Instruction`, both `i32`. */
  predicate WellFormed(p: Program) {
    IsI32(p.header) && forall k | 0 <= k < |p.instructions| :: IsI32(p.instructions[k])
  }

  // ---------------------------------------------------------------------------
  // Tokens

  /** The characters `str::split_whitespace` splits on (Unicode White_Space). */
  predicate IsWhitespace(c: char) {
    || c == ' '
    || '\t' <= c <= '\r'
    || c == '\U{85}' || c == '\U{A0}' || c == '\U{1680}'
    || '\U{2000}' <= c <= '\U{200A}'
    || c == '\U{2028}' || c == '\U{2029}' || c == '\U{202F}' || c == '\U{205F}'
    || c == '\U{3000}'
  }

  predicate AllWhitespace(s: string) {
    forall i | 0 <= i < |s| :: IsWhitespace(s[i])
  }

  predicate NoWhitespace(s: string) {
    forall i | 0 <= i < |s| :: !IsWhitespace(s[i])
  }

  /** The longest prefix of s that holds no whitespace. */
  function Word(s: string): (w: string)
    ensures |w| <= |s| && w == s[..|w|]
    ensures NoWhitespace(w)
    ensures |w| == |s| || IsWhitespace(s[|w|])
  {
    if |s| == 0 || IsWhitespace(s[0]) then [] else [s[0]] + Word(s[1..])
  }

  /** `line.split_whitespace().next()`: the first maximal run of non-whitespace
      characters, or `None` on a blank line. */
  function FirstToken(s: string): (r: Option<string>)
    ensures r.None? <==> AllWhitespace(s)
    ensures r.Some? ==> r.value != [] && NoWhitespace(r.value)
  {
    if |s| == 0 then None
    else if IsWhitespace(s[0]) then FirstToken(s[1..])
    else Some(Word(s))
  }

  lemma {:induction false} WordOfToken(tok: string, rest: string)
    requires NoWhitespace(tok)
    requires rest == [] || IsWhitespace(rest[0])
    ensures Word(tok + rest) == tok
    decreases |tok|
  {
    if tok == [] {
      assert tok + rest == rest;
    } else {
      assert (tok + rest)[1..] == tok[1..] + rest;
      WordOfToken(tok[1..], rest);
    }
  }

  /** The token of a line is what stands between its leading whitespace and the
      next whitespace: the rest of the line is ignored. */
  lemma {:induction false} FirstTokenOfPaddedLine(lead: string, tok: string, rest: string)
    requires AllWhitespace(lead)
    requires tok != [] && NoWhitespace(tok)
    requires rest == [] || IsWhitespace(rest[0])
    ensures FirstToken(lead + tok + rest) == Some(tok)
    decreases |lead|
  {
    if lead == [] {
      assert lead + tok + rest == tok + rest;
      WordOfToken(tok, rest);
    } else {
      assert (lead + tok + rest)[1..] == lead[1..] + tok + rest;
      FirstTokenOfPaddedLine(lead[1..], tok, rest);
    }
  }

  // ---------------------------------------------------------------------------
  // Hexadecimal numbers

  /** `char::to_digit(16)`. */
  function HexDigit(c: char): Option<int> {
    if '0' <= c <= '9' then Some(c as int - '0' as int)
    else if 'a' <= c <= 'f' then Some(c as int - 'a' as int + 10)
    else if 'A' <= c <= 'F' then Some(c as int - 'A' as int + 10)
    else None
  }

  predicate AllHexDigits(s: string) {
    forall i | 0 <= i < |s| :: HexDigit(s[i]).Some?
  }

  /** The value of a string of hexadecimal digits, most significant first. */
  function HexValue(s: string): (v: nat)
    requires AllHexDigits(s)
  {
    if s == [] then 0
    else HexValue(s[..|s| - 1]) * 16 + HexDigit(s[|s| - 1]).value
  }

  /** `i32::from_str_radix(s, 16)`: an optional `+` or `-` sign, then one or more
      hexadecimal digits of either case, whose value must fit `i32`. */
  function FromStrRadix16(s: string): (r: Option<int>)
    ensures r.Some? ==> IsI32(r.value)
  {
    if s == [] then None
    else
      var negative := s[0] == '-';
      var digits := if s[0] == '+' || s[0] == '-' then s[1..] else s;
      if digits == [] || !AllHexDigits(digits) then None
      else
        var magnitude := HexValue(digits);
        var v := if negative then -(magnitude as int) else magnitude;
        if IsI32(v) then Some(v) else None
  }

  /** Reference printer for the round trip below: lower-case hexadecimal digits
      without leading zeros, and a `-` before a negative number. */
  function HexChar(d: int): char
    requires 0 <= d < 16
  {
    if d < 10 then ('0' as int + d) as char else ('a' as int + d - 10) as char
  }

  function HexDigits(m: nat): string {
    if m < 16 then [HexChar(m)] else HexDigits(m / 16) + [HexChar(m % 16)]
  }

  function ToHex(n: int): string {
    if n < 0 then "-" + HexDigits(-n) else HexDigits(n)
  }

  lemma {:induction false} HexDigitsValue(m: nat)
    ensures HexDigits(m) != [] && AllHexDigits(HexDigits(m))
    ensures HexValue(HexDigits(m)) == m
    decreases m
  {
    if m >= 16 {
      HexDigitsValue(m / 16);
      var s := HexDigits(m / 16);
      assert (s + [HexChar(m % 16)])[..|s|] == s;
    }
  }

  /** Every `i32` printed in hexadecimal parses back to itself. */
  lemma ParseHexRoundTrip(n: int)
    requires IsI32(n)
    ensures FromStrRadix16(ToHex(n)) == Some(n)
  {
    if n < 0 {
      NegativeHexRoundTrip(n);
    } else {
      NonNegativeHexRoundTrip(n);
    }
  }

  lemma NegativeHexRoundTrip(n: int)
    requires IsI32(n) && n < 0
    ensures FromStrRadix16(ToHex(n)) == Some(n)
  {
    var d := HexDigits(-n);
    var s := ToHex(n);
    HexDigitsValue(-n);
    assert s == ['-'] + d;
    assert s[0] == '-' && s[1..] == d;
    assert -(HexValue(d) as int) == n;
  }

  lemma NonNegativeHexRoundTrip(n: int)
    requires IsI32(n) && n >= 0
    ensures FromStrRadix16(ToHex(n)) == Some(n)
  {
    var s := ToHex(n);
    HexDigitsValue(n);
    assert s == HexDigits(n);
    assert HexDigit(s[0]).Some?;
    assert s[0] != '+' && s[0] != '-';
  }

  // ---------------------------------------------------------------------------
  // Program files

  /** The number on a program-file line: its first token read as hexadecimal. */
  function LineValue(line: string): Option<int> {
    match FirstToken(line)
    case None => None
    case Some(tok) => FromStrRadix16(tok)
  }

  /** Text after the first token does not change a line's value. */
  lemma LineValueIgnoresRest(lead: string, tok: string, rest: string)
    requires AllWhitespace(lead)
    requires tok != [] && NoWhitespace(tok)
    requires rest == [] || IsWhitespace(rest[0])
    ensures LineValue(lead + tok + rest) == FromStrRadix16(tok)
  {
    FirstTokenOfPaddedLine(lead, tok, rest);
  }

  /** The body lines: every line must hold a parsable token, or the whole body fails. */
  function ParseBody(lines: seq<string>): (r: Option<seq<int>>)
    ensures r.Some? <==> forall k | 0 <= k < |lines| :: LineValue(lines[k]).Some?
    ensures r.Some? ==> |r.value| == |lines|
    ensures r.Some? ==> forall k | 0 <= k < |lines| :: r.value[k] == LineValue(lines[k]).value
  {
    if lines == [] then Some([])
    else
      match LineValue(lines[0])
      case None => None
      case Some(w) =>
        match ParseBody(lines[1..])
        case None => None
        case Some(ws) => Some([w] + ws)
  }

  /** `Program::from_file` after the file has been read into lines. The first
      line's token is taken outside the `catch_unwind`, so a missing or blank
      first line panics; a body line without a token or with a bad number panics
      inside it and becomes `BadProgramInstructions`. */
  function FromLines(lines: seq<string>): (r: Failable<Program>)
    ensures r.Panic? <==> |lines| == 0 || FirstToken(lines[0]).None?
    ensures r.Panic? ==> r.kind == UnwrapFailed
    ensures r.Err? && LineValue(lines[0]).None? ==> r.error == BadProgramHeader
    ensures r.Err? && LineValue(lines[0]).Some? ==> r.error == BadProgramInstructions
    ensures r.Ok? ==> WellFormed(r.value)
    ensures r.Ok? ==> |lines| > 0 && LineValue(lines[0]) == Some(r.value.header)
  {
    if |lines| == 0 then Panic(UnwrapFailed)
    else
      match FirstToken(lines[0])
      case None => Panic(UnwrapFailed)
      case Some(firstLine) =>
        match FromStrRadix16(firstLine)
        case None => Err(BadProgramHeader)
        case Some(head) =>
          match ParseBody(lines[1..])
          case None => Err(BadProgramInstructions)
          case Some(body) => Ok(Program(head, body))
  }

  /** A program file loads exactly when every line, the header included, holds
      a number; the body words are those numbers in order. */
  lemma FromLinesBody(lines: seq<string>)
    ensures FromLines(lines).Ok? <==> |lines| > 0 && forall k | 0 <= k < |lines| :: LineValue(lines[k]).Some?
    ensures FromLines(lines).Ok? ==> |FromLines(lines).value.instructions| == |lines| - 1
    ensures FromLines(lines).Ok? ==> forall k | 0 <= k < |lines| - 1 ::
              LineValue(lines[k + 1]) == Some(FromLines(lines).value.instructions[k])
  {
    if |lines| > 0 {
      var tail := lines[1..];
      assert forall k | 0 <= k < |tail| :: tail[k] == lines[k + 1];
      if LineValue(lines[0]).Some? && ParseBody(tail).Some? {
        assert forall k | 0 <= k < |lines| :: LineValue(lines[k]).Some? by {
          forall k | 0 <= k < |lines| ensures LineValue(lines[k]).Some? {
            if k > 0 { assert lines[k] == tail[k - 1]; }
          }
        }
      }
    }
  }
}
