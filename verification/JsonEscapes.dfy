/** Exactly which strings come back when they are written and read. */
module JsonEscapes {
  import opened Wrappers
  import opened Utf8
  import opened JsonLexer
  import opened JsonText

  /** The most that reading a quoted string can add to the buffer while the lexer is in this state. */
  function Most(lexer: Lexer, s: string): int
    requires InBasicPlane(s)
  {
    match lexer
    case StringEscapeHex(count, _) => |Encoded(s)| + count - 1
    case _ => |Encoded(s)|
  }

  predicate InQuotes(lexer: Lexer) {
    || lexer.InString? || lexer.StringEscape?
    || (lexer.StringEscapeHex? && lexer.count < 4
        && lexer.value < if lexer.count == 0 then 1 else if lexer.count == 1 then 0x10 else if lexer.count == 2 then 0x100 else 0x1000)
  }

  /** What is read of the rest of a string that is the whole document. */
  function ReadRest(lexer: Lexer, s: string, buffer: seq<nat>): Outcome
    requires InBasicPlane(s)
  {
    Run(lexer, Machine(Escaped(s) + ['"'], [], buffer))
  }

  ghost predicate AddsAtMost(outcome: Outcome, buffer: seq<nat>, n: int) {
    outcome.Read? ==> |outcome.machine.buffer| <= |buffer| + n
  }

  lemma AtTheEnd(lexer: Lexer, buffer: seq<nat>)
    requires InQuotes(lexer)
    ensures AddsAtMost(ReadRest(lexer, [], buffer), buffer, Most(lexer, []))
  {
    assert Escaped([]) + ['"'] == ['"'] + [];
    if lexer.StringEscape? {
      RunOn(lexer, '"', [], [], buffer, lexer, [], buffer);
      assert StepOn(lexer, None, [], buffer).Fail?;
    } else if lexer.StringEscapeHex? {
      FailsOn(lexer, '"', [], buffer);
    } else {
      assert StepOn(lexer, Some('"'), [], buffer) == Done(String, [], buffer, false);
    }
  }

  /** A character that stands for itself. */
  predicate IsPlain(c: char) {
    !IsUnsafe(c) && ' ' <= c < '\U{7F}'
  }

  lemma EscapedFirst(s: string)
    requires InBasicPlane(s) && s != []
    ensures Escaped(s) + ['"'] == EscapedChar(s[0]) + (Escaped(s[1..]) + ['"'])
    ensures |Encoded(s)| == |AddUtf8(s[0] as nat)| + |Encoded(s[1..])|
    ensures IsPlain(s[0]) || IsUnsafe(s[0]) ==> |AddUtf8(s[0] as nat)| == 1
  {
  }

  /** Reading goes on as if the lexer had started later, if the first character makes it go on. */
  lemma AfterOne(lexer: Lexer, c: char, rest: string, buffer: seq<nat>, lexer': Lexer, buffer': seq<nat>)
    requires StepOn(lexer, Some(c), [], buffer) == Continue(lexer', [], buffer')
    ensures Run(lexer, Machine([c] + rest, [], buffer)) == Run(lexer', Machine(rest, [], buffer'))
  {
    RunOn(lexer, c, rest, [], buffer, lexer', [], buffer');
  }

  lemma FailsOn(lexer: Lexer, c: char, rest: string, buffer: seq<nat>)
    requires StepOn(lexer, Some(c), [], buffer).Fail?
    ensures Run(lexer, Machine([c] + rest, [], buffer)).Bad?
  {
  }

  /** In the middle of a string: nothing that is read adds more bytes than the string has. */
  lemma {:induction false} AddsNoMore(lexer: Lexer, s: string, buffer: seq<nat>)
    requires InBasicPlane(s) && InQuotes(lexer)
    ensures AddsAtMost(ReadRest(lexer, s, buffer), buffer, Most(lexer, s))
    ensures lexer.InString? && !IsSafe(s) ==> AddsAtMost(ReadRest(lexer, s, buffer), buffer, |Encoded(s)| - 1)
    decreases |s|
  {
    hide Run, Escaped, Encoded, EscapedChar, StepOn, AddUtf8, IsUnsafe;
    if s == [] {
      AtTheEnd(lexer, buffer);
    } else {
      EscapedFirst(s);
      if IsPlain(s[0]) {
        PlainFirst(lexer, s, buffer);
      } else if !IsUnsafe(s[0]) {
        HexFirst(lexer, s, buffer);
      } else {
        UnsafeFirst(lexer, s, buffer);
      }
    }
  }

  lemma {:induction false} PlainFirst(lexer: Lexer, s: string, buffer: seq<nat>)
    requires InBasicPlane(s) && InQuotes(lexer) && s != [] && IsPlain(s[0])
    ensures AddsAtMost(ReadRest(lexer, s, buffer), buffer, Most(lexer, s))
    ensures lexer.InString? && !IsSafe(s) ==> AddsAtMost(ReadRest(lexer, s, buffer), buffer, |Encoded(s)| - 1)
    decreases |s|, 0
  {
    hide Run, Escaped, Encoded, StepOn, AddUtf8;
    EscapedFirst(s);
    var c, rest := s[0], Escaped(s[1..]) + ['"'];
    assert EscapedChar(c) == [c];
    PlainStep(lexer, c, buffer);
    match StepOn(lexer, Some(c), [], buffer)
    case Continue(lexer', _, buffer') =>
      AfterOne(lexer, c, rest, buffer, lexer', buffer');
      AddsNoMore(lexer', s[1..], buffer');
      assert !IsSafe(s) ==> !IsSafe(s[1..]);
    case Fail(_) => FailsOn(lexer, c, rest, buffer);
  }

  lemma PlainStep(lexer: Lexer, c: char, buffer: seq<nat>)
    requires InQuotes(lexer) && IsPlain(c)
    ensures match StepOn(lexer, Some(c), [], buffer)
            case Continue(lexer', scopes, buffer') =>
              && scopes == [] && InQuotes(lexer')
              && (lexer.InString? ==> lexer' == InString && |buffer'| == |buffer| + 1)
              && (lexer.StringEscape? ==> buffer' == buffer && (lexer' == StringEscape || lexer' == StringEscapeHex(0, 0)))
              && (lexer.StringEscapeHex? ==>
                    if lexer.count < 3 then buffer' == buffer && lexer'.StringEscapeHex? && lexer'.count == lexer.count + 1
                    else lexer' == InString && |buffer'| <= |buffer| + 3)
            case Fail(_) => true
            case Done(_, _, _, _) => false
  {
  }

  /** The backslash of an escape. */
  lemma BackslashStep(lexer: Lexer, buffer: seq<nat>)
    requires InQuotes(lexer)
    ensures if lexer.StringEscapeHex? then StepOn(lexer, Some('\\'), [], buffer).Fail?
            else StepOn(lexer, Some('\\'), [], buffer) == Continue(StringEscape, [], buffer)
  {
  }

  lemma {:induction false} HexFirst(lexer: Lexer, s: string, buffer: seq<nat>)
    requires InBasicPlane(s) && InQuotes(lexer) && s != [] && !IsPlain(s[0]) && !IsUnsafe(s[0])
    ensures AddsAtMost(ReadRest(lexer, s, buffer), buffer, Most(lexer, s))
    ensures lexer.InString? && !IsSafe(s) ==> AddsAtMost(ReadRest(lexer, s, buffer), buffer, |Encoded(s)| - 1)
    decreases |s|, 0
  {
    hide Run, Escaped, Encoded, StepOn, AddUtf8, Hex4;
    EscapedFirst(s);
    var c, rest := s[0] as nat, Escaped(s[1..]) + ['"'];
    var escape := Hex4(c) + rest;
    assert EscapedChar(s[0]) + rest == ['\\'] + (['u'] + escape);
    BackslashStep(lexer, buffer);
    if lexer.StringEscapeHex? {
      FailsOn(lexer, '\\', ['u'] + escape, buffer);
    } else {
      AfterOne(lexer, '\\', ['u'] + escape, buffer, StringEscape, buffer);
      assert StepOn(StringEscape, Some('u'), [], buffer) == Continue(StringEscapeHex(0, 0), [], buffer) by { EscapeU(buffer); }
      AfterOne(StringEscape, 'u', escape, buffer, StringEscapeHex(0, 0), buffer);
      RunHex4(c, rest, [], buffer);
      AddsNoMore(InString, s[1..], buffer + AddUtf8(c));
      assert !IsSafe(s) ==> !IsSafe(s[1..]);
    }
  }

  lemma EscapeU(buffer: seq<nat>)
    ensures StepOn(StringEscape, Some('u'), [], buffer) == Continue(StringEscapeHex(0, 0), [], buffer)
    ensures StepOn(StringEscape, Some('"'), [], buffer) == Continue(StringEscape, [], buffer)
  {
  }

  lemma {:induction false} UnsafeFirst(lexer: Lexer, s: string, buffer: seq<nat>)
    requires InBasicPlane(s) && InQuotes(lexer) && s != [] && IsUnsafe(s[0])
    ensures AddsAtMost(ReadRest(lexer, s, buffer), buffer, Most(lexer, s))
    ensures lexer.InString? ==> AddsAtMost(ReadRest(lexer, s, buffer), buffer, |Encoded(s)| - 1)
    decreases |s|, 0
  {
    hide Run, Escaped, Encoded, StepOn, AddUtf8;
    EscapedFirst(s);
    var rest := Escaped(s[1..]) + ['"'];
    var after := if s[0] == '"' || s[0] == '\\' then [s[0]] + rest else rest;
    assert EscapedChar(s[0]) + rest == ['\\'] + after;
    BackslashStep(lexer, buffer);
    if lexer.StringEscapeHex? {
      FailsOn(lexer, '\\', after, buffer);
    } else {
      AfterOne(lexer, '\\', after, buffer, StringEscape, buffer);
      if s[0] == '"' || s[0] == '\\' {
        EscapeU(buffer);
        BackslashStep(StringEscape, buffer);
        AfterOne(StringEscape, s[0], rest, buffer, StringEscape, buffer);
      }
      AddsNoMore(StringEscape, s[1..], buffer);
    }
  }

  /** A string that is written and read comes back exactly if none of its characters is unsafe. */
  lemma StringRoundTripsIff(s: string, buffer: seq<nat>)
    requires InBasicPlane(s)
    ensures var r := Run(Default, Machine(Quoted(s), [], buffer));
            r.Read? && r.token == String && Decoded(r.machine.buffer) == Some(s) && r.machine.buffer == Encoded(s) <==> IsSafe(s)
  {
    hide Run, Encoded, Escaped, StepOn, Decoded;
    DecodedEncoded(s);
    assert Quoted(s) == ['"'] + (Escaped(s) + ['"']) && Quoted(s) + [] == Quoted(s);
    if IsSafe(s) {
      ReadQuoted(s, [], [], buffer);
    } else {
      OpeningQuote(buffer);
      AfterOne(Default, '"', Escaped(s) + ['"'], buffer, InString, []);
      AddsNoMore(InString, s, []);
    }
  }

  lemma OpeningQuote(buffer: seq<nat>)
    ensures StepOn(Default, Some('"'), [], buffer) == Continue(InString, [], [])
  {
  }
}
