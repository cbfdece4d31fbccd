/** The pushdown tokenizer of the JSON reader, one character at a time. */
module JsonLexer {
  import opened Wrappers
  import opened Utf8

  datatype Token = Eof | BeginList | EndList | BeginObject | EndObject | PropertyName | Number | String

  /** What the reader is inside of; the innermost scope comes first. */
  datatype Scope = InList | ListComma | InObject | Name | Colon | PropertyValue | ObjectComma

  datatype Lexer =
    | Default
    | NumberZero
    | NumberStart
    | NumberInt
    | NumberFraction
    | NumberFractionTail
    | NumberExponent
    | NumberExponentTail
    | InString
    | StringEscape
    | StringEscapeHex(count: nat, value: nat)

  datatype Error = BadImageFormat | NotImplemented

  datatype Step =
    | Continue(lexer: Lexer, scopes: seq<Scope>, buffer: seq<nat>)
    | Done(token: Token, scopes: seq<Scope>, buffer: seq<nat>, pushBack: bool)
    | Fail(error: Error)

  predicate IsDigit(c: char) {
    '0' <= c <= '9'
  }

  /** Among the first 256 characters: the digits, superscripts and fractions. */
  predicate IsNumber(c: char) {
    IsDigit(c) || c in {'\U{B2}', '\U{B3}', '\U{B9}', '\U{BC}', '\U{BD}', '\U{BE}'}
  }

  predicate IsControl(c: char) {
    c < ' ' || '\U{7F}' <= c < '\U{A0}'
  }

  function HexDigit(c: char): Option<nat> {
    if '0' <= c <= '9' then Some(c as nat - '0' as nat)
    else if 'a' <= c <= 'f' then Some(c as nat - 'a' as nat + 10)
    else if 'A' <= c <= 'F' then Some(c as nat - 'A' as nat + 10)
    else None
  }

  /** A value has been read: what it is, and what scope it leaves the reader in. */
  function Value(token: Token, scopes: seq<Scope>, buffer: seq<nat>, pushBack: bool): Step {
    if scopes == [] then Done(token, scopes, buffer, pushBack)
    else match scopes[0]
      case InList => Done(token, scopes, buffer, pushBack)
      case InObject =>
        if token != String then Fail(BadImageFormat) else Done(PropertyName, [Name] + scopes[1..], buffer, pushBack)
      case ObjectComma =>
        if token != String then Fail(BadImageFormat) else Done(PropertyName, [Name] + scopes[1..], buffer, pushBack)
      case ListComma => Done(token, [InList] + scopes[1..], buffer, pushBack)
      case Name => Fail(BadImageFormat)
      case Colon => Done(token, [PropertyValue] + scopes[1..], buffer, pushBack)
      case PropertyValue => Fail(NotImplemented)
  }

  /** The character `c`, or the end of the stream, between tokens. */
  function DefaultStep(c: Option<char>, scopes: seq<Scope>, buffer: seq<nat>): Step {
    match c
    case None => Done(Eof, scopes, buffer, false)
    case Some(ch) =>
      if ch == ' ' || ch == '\t' || ch == '\r' || ch == '\n' then Continue(Default, scopes, buffer)
      else if ch == '[' then Done(BeginList, [InList] + scopes, buffer, false)
      else if ch == ']' then
        if scopes == [] || scopes[0] != InList then Fail(BadImageFormat)
        else Value(EndList, scopes[1..], buffer, false)
      else if ch == '{' then Done(BeginObject, [InObject] + scopes, buffer, false)
      else if ch == '}' then
        if scopes != [] && (scopes[0] == InObject || scopes[0] == PropertyValue)
        then Value(EndObject, scopes[1..], buffer, false)
        else Fail(BadImageFormat)
      else if ch == ',' then
        if scopes == [] then Fail(BadImageFormat)
        else if scopes[0] == InList then Continue(Default, [ListComma] + scopes[1..], buffer)
        else if scopes[0] == PropertyValue then Continue(Default, [ObjectComma] + scopes[1..], buffer)
        else Fail(BadImageFormat)
      else if ch == ':' then
        if scopes == [] || scopes[0] != Name then Fail(BadImageFormat)
        else Continue(Default, [Colon] + scopes[1..], buffer)
      else if ch == '-' then Continue(NumberStart, scopes, [ch as nat])
      else if ch == '0' then Continue(NumberZero, scopes, [ch as nat])
      else if '1' <= ch <= '9' then Continue(NumberInt, scopes, [ch as nat])
      else if ch == '"' then Continue(InString, scopes, [])
      else Fail(NotImplemented)
  }

  function NumberStep(lexer: Lexer, c: Option<char>, scopes: seq<Scope>, buffer: seq<nat>): Step {
    match lexer
    case NumberStart =>
      if c.None? then Fail(BadImageFormat)
      else if c.value == '0' then Continue(NumberZero, scopes, buffer + [c.value as nat])
      else if IsDigit(c.value) then Continue(NumberInt, scopes, buffer + [c.value as nat])
      else Fail(NotImplemented)
    case NumberInt =>
      if c.None? then Value(Number, scopes, buffer, true)
      else if c.value == '.' then Continue(NumberFraction, scopes, buffer + [c.value as nat])
      else if c.value == 'e' || c.value == 'E' then Continue(NumberExponent, scopes, buffer + [c.value as nat])
      else if IsDigit(c.value) then Continue(NumberInt, scopes, buffer + [c.value as nat])
      else Value(Number, scopes, buffer, true)
    case NumberZero =>
      if c.None? then Done(Number, scopes, buffer, false)
      // the dot or the exponent's letter does not get into the buffer
      else if c.value == '.' then Continue(NumberFraction, scopes, buffer)
      else if c.value == 'e' || c.value == 'E' then Continue(NumberExponent, scopes, buffer)
      else if IsDigit(c.value) then Continue(NumberZero, scopes, buffer + [c.value as nat])
      else Value(Number, scopes, buffer, true)
    case NumberFraction =>
      if c.None? then Fail(BadImageFormat)
      else if c.value == 'e' || c.value == 'E' then Continue(NumberExponent, scopes, buffer + [c.value as nat])
      else if IsNumber(c.value) then Continue(NumberFractionTail, scopes, buffer + [c.value as nat])
      else Fail(BadImageFormat)
    case NumberFractionTail =>
      if c.None? then Done(Number, scopes, buffer, false)
      else if c.value == 'e' || c.value == 'E' then Continue(NumberExponent, scopes, buffer + [c.value as nat])
      else if IsNumber(c.value) then Continue(NumberFractionTail, scopes, buffer + [c.value as nat])
      else Value(Number, scopes, buffer, true)
    case NumberExponent =>
      if c.None? then Fail(BadImageFormat)
      else if c.value == '+' || c.value == '-' || IsDigit(c.value) then
        Continue(NumberExponentTail, scopes, buffer + [c.value as nat])
      else Fail(BadImageFormat)
    case _ =>
      if c.None? then Done(Number, scopes, buffer, false)
      else if IsNumber(c.value) then Continue(NumberExponentTail, scopes, buffer + [c.value as nat])
      else Value(Number, scopes, buffer, true)
  }

  function StringStep(lexer: Lexer, c: Option<char>, scopes: seq<Scope>, buffer: seq<nat>): Step {
    if c.None? then Fail(BadImageFormat)
    else match lexer
      case StringEscape =>
        if c.value in {'"', '\\', 'b', 'f', 'n', 'r', 't'}
        // nothing gets into the buffer, and the escape goes on
        then Continue(StringEscape, scopes, buffer)
        else if c.value == 'u' then Continue(StringEscapeHex(0, 0), scopes, buffer)
        else Fail(BadImageFormat)
      case StringEscapeHex(count, value) =>
        var digit := HexDigit(c.value);
        if digit.None? then Fail(BadImageFormat)
        else
          var hex := value * 16 + digit.value;
          if count + 1 != 4 then Continue(StringEscapeHex(count + 1, hex), scopes, buffer)
          else if hex < 0x11_0000 then Continue(InString, scopes, buffer + AddUtf8(hex))
          else Fail(BadImageFormat)
      case _ =>
        if c.value == '"' then Value(String, scopes, buffer, false)
        else if c.value == '\\' then Continue(StringEscape, scopes, buffer)
        else if !IsControl(c.value) then Continue(InString, scopes, buffer + [c.value as nat])
        else Fail(BadImageFormat)
  }

  function StepOn(lexer: Lexer, c: Option<char>, scopes: seq<Scope>, buffer: seq<nat>): Step {
    if lexer.Default? then DefaultStep(c, scopes, buffer)
    else if lexer.InString? || lexer.StringEscape? || lexer.StringEscapeHex? then StringStep(lexer, c, scopes, buffer)
    else NumberStep(lexer, c, scopes, buffer)
  }

  // ---- reading a token ----

  datatype Machine = Machine(rest: string, scopes: seq<Scope>, buffer: seq<nat>)

  datatype Outcome = Read(token: Token, machine: Machine) | Bad(error: Error)

  function Run(lexer: Lexer, m: Machine): Outcome
    decreases |m.rest|
  {
    var c := if m.rest == [] then None else Some(m.rest[0]);
    match StepOn(lexer, c, m.scopes, m.buffer)
    case Continue(lexer', scopes, buffer) =>
      if m.rest == [] then Bad(BadImageFormat) else Run(lexer', Machine(m.rest[1..], scopes, buffer))
    case Done(token, scopes, buffer, pushBack) =>
      Read(token, Machine(if m.rest == [] || pushBack then m.rest else m.rest[1..], scopes, buffer))
    case Fail(error) => Bad(error)
  }

  /** One character of a run. */
  lemma {:induction false} RunOnce(lexer: Lexer, m: Machine)
    ensures var c := if m.rest == [] then None else Some(m.rest[0]);
            match StepOn(lexer, c, m.scopes, m.buffer)
            case Continue(lexer', scopes, buffer) =>
              c.Some? ==> Run(lexer, m) == Run(lexer', Machine(m.rest[1..], scopes, buffer))
            case Done(token, scopes, buffer, pushBack) =>
              Run(lexer, m) == Read(token, Machine(if c.None? || pushBack then m.rest else m.rest[1..], scopes, buffer))
            case Fail(error) => Run(lexer, m) == Bad(error)
  {
    hide StepOn;
  }

  /** At the end of the stream no lexer goes on. */
  lemma NoStepPastEnd(lexer: Lexer, scopes: seq<Scope>, buffer: seq<nat>)
    ensures !StepOn(lexer, None, scopes, buffer).Continue?
  {
  }
}
