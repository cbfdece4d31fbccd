/** Trees of lists, objects, integers and strings: their text, and the tokens they are made of. */
module JsonText {
  import opened Wrappers
  import opened Utf8
  import opened JsonLexer

  datatype Json =
    | Integer(value: int)
    | Text(chars: string)
    | List(items: seq<Json>)
    | Object(fields: seq<Field>)

  datatype Field = Field(key: string, value: Json)

  // ---- the text of a tree ----

  function HexChar(n: nat): char
    requires n < 16
  {
    if n < 10 then ('0' as nat + n) as char else ('A' as nat + (n - 10)) as char
  }

  function Hex4(n: nat): string
    requires n < 0x1_0000
  {
    [HexChar(n / 0x1000), HexChar((n / 0x100) % 0x10), HexChar((n / 0x10) % 0x10), HexChar(n % 0x10)]
  }

  /** A character whose escape the reader cannot read back. */
  predicate IsUnsafe(c: char) {
    c == '\U{8}' || c == '\t' || c == '\n' || c == '\U{C}' || c == '\r' || c == '"' || c == '\\'
  }

  function EscapedChar(c: char): string
    requires c as int < 0x1_0000
  {
    if c == '"' then ['\\', '"']
    else if c == '\\' then ['\\', '\\']
    else if IsUnsafe(c) then ['\\']
    else if c < ' ' || '\U{7F}' <= c then ['\\', 'u'] + Hex4(c as nat)
    else [c]
  }

  function Escaped(s: string): string
    requires InBasicPlane(s)
  {
    if s == [] then [] else EscapedChar(s[0]) + Escaped(s[1..])
  }

  function Quoted(s: string): string
    requires InBasicPlane(s)
  {
    ['"'] + Escaped(s) + ['"']
  }

  function Digits(n: nat): string {
    (if n < 10 then [] else Digits(n / 10)) + [('0' as nat + n % 10) as char]
  }

  function Decimal(i: int): string {
    if i < 0 then ['-'] + Digits(-i) else Digits(i)
  }

  /** The largest integer that a 64-bit float can be trusted with. */
  const MAX_EXACT: int := 0x20_0000_0000_0000 - 1

  predicate IsExact(i: int) {
    -MAX_EXACT <= i <= MAX_EXACT
  }

  ghost predicate Writable(v: Json)
    decreases v
  {
    match v
    case Integer(_) => true
    case Text(s) => InBasicPlane(s)
    case List(items) => forall i :: 0 <= i < |items| ==> Writable(items[i])
    case Object(fields) => forall i :: 0 <= i < |fields| ==> InBasicPlane(fields[i].key) && Writable(fields[i].value)
  }

  ghost function TextOf(v: Json): string
    requires Writable(v)
    decreases v, 1, 0
  {
    match v
    case Integer(i) => if IsExact(i) then Decimal(i) else ['"'] + Decimal(i) + ['"']
    case Text(s) => Quoted(s)
    case List(items) => ['['] + ItemsText(v, |items|) + [']']
    case Object(fields) => ['{'] + FieldsText(v, |fields|) + ['}']
  }

  /** The first `n` items of a list, with the commas between them. */
  ghost function ItemsText(v: Json, n: nat): string
    requires v.List? && Writable(v) && n <= |v.items|
    decreases v, 0, n
  {
    if n == 0 then []
    else ItemsText(v, n - 1) + Separator(n - 1) + TextOf(v.items[n - 1])
  }

  ghost function FieldsText(v: Json, n: nat): string
    requires v.Object? && Writable(v) && n <= |v.fields|
    decreases v, 0, n
  {
    if n == 0 then []
    else FieldsText(v, n - 1) + Separator(n - 1) + Quoted(v.fields[n - 1].key) + [':'] + TextOf(v.fields[n - 1].value)
  }

  function Separator(before: nat): string {
    if before == 0 then [] else [',']
  }

  // ---- the tokens of a tree ----

  /** A token, the bytes it comes with, and how deeply nested the reader is once it has read it. */
  datatype Event = Event(token: Token, payload: seq<nat>, depth: nat)

  function Bytes(s: string): seq<nat> {
    if s == [] then [] else [s[0] as nat] + Bytes(s[1..])
  }

  function Payload(token: Token, buffer: seq<nat>): seq<nat> {
    if token == Number || token == String || token == PropertyName then buffer else []
  }

  ghost function Events(v: Json, depth: nat): seq<Event>
    requires Writable(v)
    decreases v, 1, 0
  {
    match v
    case Integer(i) => [Event(if IsExact(i) then Number else String, Bytes(Decimal(i)), depth)]
    case Text(s) => [Event(String, Encoded(s), depth)]
    case List(items) => [Event(BeginList, [], depth + 1)] + ItemsEvents(v, |items|, depth + 1) + [Event(EndList, [], depth)]
    case Object(fields) =>
      [Event(BeginObject, [], depth + 1)] + FieldsEvents(v, |fields|, depth + 1) + [Event(EndObject, [], depth)]
  }

  ghost function ItemsEvents(v: Json, n: nat, depth: nat): seq<Event>
    requires v.List? && Writable(v) && n <= |v.items|
    decreases v, 0, n
  {
    if n == 0 then [] else ItemsEvents(v, n - 1, depth) + Events(v.items[n - 1], depth)
  }

  ghost function FieldsEvents(v: Json, n: nat, depth: nat): seq<Event>
    requires v.Object? && Writable(v) && n <= |v.fields|
    decreases v, 0, n
  {
    if n == 0 then []
    else FieldsEvents(v, n - 1, depth)
         + [Event(PropertyName, Encoded(v.fields[n - 1].key), depth)]
         + Events(v.fields[n - 1].value, depth)
  }

  // ---- reading text back ----

  /** Reading the text token by token gives these events, and leaves this much to read. */
  ghost predicate Yields(m: Machine, events: seq<Event>, rest: string, scopes: seq<Scope>)
    decreases |events|
  {
    if events == [] then m.rest == rest && m.scopes == scopes
    else match Run(Default, m)
      case Read(token, m') =>
        && events[0] == Event(token, Payload(token, m'.buffer), |m'.scopes|)
        && Yields(m', events[1..], rest, scopes)
      case Bad(_) => false
  }

  lemma {:induction false} YieldsThen(m: Machine, e: seq<Event>, rest: string, scopes: seq<Scope>,
                                      e': seq<Event>, rest': string, scopes': seq<Scope>)
    requires Yields(m, e, rest, scopes)
    requires forall buffer :: Yields(Machine(rest, scopes, buffer), e', rest', scopes')
    ensures Yields(m, e + e', rest', scopes')
    decreases |e|
  {
    hide Run;
    if e == [] {
      assert m == Machine(rest, scopes, m.buffer) && e + e' == e';
    } else {
      YieldsThen(Run(Default, m).machine, e[1..], rest, scopes, e', rest', scopes');
      assert (e + e')[1..] == e[1..] + e';
    }
  }

  lemma YieldsOne(m: Machine, token: Token, m': Machine)
    requires Run(Default, m) == Read(token, m')
    ensures Yields(m, [Event(token, Payload(token, m'.buffer), |m'.scopes|)], m'.rest, m'.scopes)
  {
  }

  // ---- numbers ----

  predicate AllDigits(s: string) {
    forall i :: 0 <= i < |s| ==> IsDigit(s[i])
  }

  lemma {:induction false} DigitsAreDigits(n: nat)
    ensures |Digits(n)| > 0 && AllDigits(Digits(n))
    ensures n > 0 ==> '1' <= Digits(n)[0] <= '9'
    ensures n == 0 ==> Digits(n) == ['0']
  {
    if n >= 10 {
      DigitsAreDigits(n / 10);
    }
  }

  lemma {:induction false} BytesJoin(s: string, t: string)
    ensures Bytes(s + t) == Bytes(s) + Bytes(t)
  {
    if s == [] {
      assert s + t == t;
    } else {
      var rest := s[1..] + t;
      assert (s + t)[0] == s[0] && (s + t)[1..] == rest;
      calc {
        Bytes(s + t);
        [s[0] as nat] + Bytes(rest);
        { BytesJoin(s[1..], t); }
        [s[0] as nat] + (Bytes(s[1..]) + Bytes(t));
        ([s[0] as nat] + Bytes(s[1..])) + Bytes(t);
        Bytes(s) + Bytes(t);
      }
    }
  }

  /** What may follow a number: nothing at the top, or the end of an item. */
  predicate Delimited(rest: string, scopes: seq<Scope>) {
    if rest == [] then scopes == [] else rest[0] == ',' || rest[0] == ']' || rest[0] == '}'
  }

  lemma {:induction false} RunDigits(digits: string, rest: string, scopes: seq<Scope>, buffer: seq<nat>)
    requires AllDigits(digits) && Delimited(rest, scopes)
    ensures Run(NumberInt, Machine(digits + rest, scopes, buffer)) == Run(NumberInt, Machine(rest, scopes, buffer + Bytes(digits)))
  {
    if digits == [] {
      assert digits + rest == rest && buffer + [] == buffer;
    } else {
      assert (digits + rest)[0] == digits[0] && (digits + rest)[1..] == digits[1..] + rest;
      RunOnce(NumberInt, Machine(digits + rest, scopes, buffer));
      hide Run;
      RunDigits(digits[1..], rest, scopes, buffer + [digits[0] as nat]);
      assert buffer + [digits[0] as nat] + Bytes(digits[1..]) == buffer + Bytes(digits);
    }
  }

  /** The scope that a value leaves the reader in, if it may stand there. */
  predicate TakesValue(scopes: seq<Scope>) {
    scopes == [] || scopes[0] == InList || scopes[0] == ListComma || scopes[0] == Colon
  }

  function AfterValue(scopes: seq<Scope>): (r: seq<Scope>)
    requires TakesValue(scopes)
    ensures |r| == |scopes|
  {
    if scopes == [] then []
    else [if scopes[0] == Colon then PropertyValue else InList] + scopes[1..]
  }

  lemma ValueTaken(token: Token, scopes: seq<Scope>, buffer: seq<nat>, pushBack: bool)
    requires TakesValue(scopes)
    ensures Value(token, scopes, buffer, pushBack) == Done(token, AfterValue(scopes), buffer, pushBack)
  {
    assert scopes != [] ==> scopes == [scopes[0]] + scopes[1..];
  }

  lemma NumberEnds(lexer: Lexer, rest: string, scopes: seq<Scope>, buffer: seq<nat>)
    requires lexer == NumberInt || lexer == NumberZero
    requires TakesValue(scopes) && Delimited(rest, scopes)
    ensures Run(lexer, Machine(rest, scopes, buffer)) == Read(Number, Machine(rest, AfterValue(scopes), buffer))
  {
    ValueTaken(Number, scopes, buffer, true);
  }

  /** One character is consumed and the token goes on. */
  lemma RunOn(lexer: Lexer, c: char, rest: string, scopes: seq<Scope>, buffer: seq<nat>, lexer': Lexer, scopes': seq<Scope>, buffer': seq<nat>)
    requires StepOn(lexer, Some(c), scopes, buffer) == Continue(lexer', scopes', buffer')
    ensures Run(lexer, Machine([c] + rest, scopes, buffer)) == Run(lexer', Machine(rest, scopes', buffer'))
  {
    assert ([c] + rest)[1..] == rest;
  }

  lemma ReadPositive(digits: string, rest: string, scopes: seq<Scope>, buffer: seq<nat>)
    requires digits != [] && AllDigits(digits) && digits[0] != '0'
    requires TakesValue(scopes) && Delimited(rest, scopes)
    ensures Run(Default, Machine(digits + rest, scopes, buffer)) == Read(Number, Machine(rest, AfterValue(scopes), Bytes(digits)))
  {
    hide Run;
    var d := digits[0];
    assert digits + rest == [d] + (digits[1..] + rest);
    RunOn(Default, d, digits[1..] + rest, scopes, buffer, NumberInt, scopes, [d as nat]);
    RunDigits(digits[1..], rest, scopes, [d as nat]);
    NumberEnds(NumberInt, rest, scopes, [d as nat] + Bytes(digits[1..]));
  }

  lemma FirstDigit(digits: string)
    requires digits != [] && AllDigits(digits)
    ensures IsDigit(digits[0]) && AllDigits(digits[1..])
  {
  }

  lemma MinusThenDigit(d: char, scopes: seq<Scope>, buffer: seq<nat>)
    requires IsDigit(d) && d != '0'
    ensures var minus := '-' as nat;
            && StepOn(Default, Some('-'), scopes, buffer) == Continue(NumberStart, scopes, [minus])
            && StepOn(NumberStart, Some(d), scopes, [minus]) == Continue(NumberInt, scopes, [minus, d as nat])
  {
  }

  lemma ReadNegative(digits: string, rest: string, scopes: seq<Scope>, buffer: seq<nat>)
    requires digits != [] && AllDigits(digits) && digits[0] != '0'
    requires TakesValue(scopes) && Delimited(rest, scopes)
    ensures Run(Default, Machine(['-'] + digits + rest, scopes, buffer)) ==
            Read(Number, Machine(rest, AfterValue(scopes), Bytes(['-'] + digits)))
  {
    hide Run, Value, StepOn, AllDigits, Bytes, AfterValue, TakesValue, Delimited;
    var d, tail := digits[0], digits[1..];
    FirstDigit(digits);
    MinusThenDigit(d, scopes, buffer);
    var minus := '-' as nat;
    assert ['-'] + digits + rest == ['-'] + ([d] + (tail + rest));
    RunOn(Default, '-', [d] + (tail + rest), scopes, buffer, NumberStart, scopes, [minus]);
    RunOn(NumberStart, d, tail + rest, scopes, [minus], NumberInt, scopes, [minus, d as nat]);
    RunDigits(tail, rest, scopes, [minus, d as nat]);
    NumberEnds(NumberInt, rest, scopes, [minus, d as nat] + Bytes(tail));
    MinusBytes(digits);
  }

  lemma MinusBytes(digits: string)
    requires digits != []
    ensures Bytes(['-'] + digits) == ['-' as nat, digits[0] as nat] + Bytes(digits[1..])
  {
    assert (['-'] + digits)[1..] == digits;
  }

  lemma ReadZero(rest: string, scopes: seq<Scope>, buffer: seq<nat>)
    requires TakesValue(scopes) && Delimited(rest, scopes)
    ensures Run(Default, Machine(['0'] + rest, scopes, buffer)) == Read(Number, Machine(rest, AfterValue(scopes), Bytes(['0'])))
  {
    hide Run, Value;
    RunOn(Default, '0', rest, scopes, buffer, NumberZero, scopes, ['0' as nat]);
    NumberEnds(NumberZero, rest, scopes, ['0' as nat]);
    assert Bytes(['0']) == ['0' as nat];
  }

  lemma ReadDecimal(i: int, rest: string, scopes: seq<Scope>, buffer: seq<nat>)
    requires TakesValue(scopes) && Delimited(rest, scopes)
    ensures Run(Default, Machine(Decimal(i) + rest, scopes, buffer)) ==
            Read(Number, Machine(rest, AfterValue(scopes), Bytes(Decimal(i))))
  {
    hide Run, Bytes, Digits;
    if i < 0 {
      DigitsAreDigits(-i);
      ReadNegative(Digits(-i), rest, scopes, buffer);
    } else {
      DigitsAreDigits(i);
      if i == 0 {
        ReadZero(rest, scopes, buffer);
      } else {
        ReadPositive(Digits(i), rest, scopes, buffer);
      }
    }
  }

  // ---- strings ----

  predicate IsSafe(s: string) {
    forall i :: 0 <= i < |s| ==> !IsUnsafe(s[i])
  }

  lemma HexDigitOfChar(n: nat)
    requires n < 16
    ensures HexDigit(HexChar(n)) == Some(n)
  {
  }

  lemma Hex4Value(n: nat)
    requires n < 0x1_0000
    ensures var a, b, c, d := n / 0x1000, (n / 0x100) % 0x10, (n / 0x10) % 0x10, n % 0x10;
            ((a * 16 + b) * 16 + c) * 16 + d == n
  {
  }

  /** One digit of an escape that is not its last. */
  lemma RunHexDigit(n: nat, count: nat, value: nat, rest: string, scopes: seq<Scope>, buffer: seq<nat>)
    requires n < 16 && count < 3
    ensures Run(StringEscapeHex(count, value), Machine([HexChar(n)] + rest, scopes, buffer)) ==
            Run(StringEscapeHex(count + 1, value * 16 + n), Machine(rest, scopes, buffer))
  {
    hide Run;
    HexDigitOfChar(n);
    RunOn(StringEscapeHex(count, value), HexChar(n), rest, scopes, buffer, StringEscapeHex(count + 1, value * 16 + n), scopes, buffer);
  }

  lemma RunLastHexDigit(n: nat, value: nat, rest: string, scopes: seq<Scope>, buffer: seq<nat>)
    requires n < 16 && value * 16 + n < 0x11_0000
    ensures Run(StringEscapeHex(3, value), Machine([HexChar(n)] + rest, scopes, buffer)) ==
            Run(InString, Machine(rest, scopes, buffer + AddUtf8(value * 16 + n)))
  {
    hide Run;
    HexDigitOfChar(n);
    RunOn(StringEscapeHex(3, value), HexChar(n), rest, scopes, buffer, InString, scopes, buffer + AddUtf8(value * 16 + n));
  }

  lemma RunHex4(n: nat, rest: string, scopes: seq<Scope>, buffer: seq<nat>)
    requires n < 0x1_0000
    ensures Run(StringEscapeHex(0, 0), Machine(Hex4(n) + rest, scopes, buffer)) ==
            Run(InString, Machine(rest, scopes, buffer + AddUtf8(n)))
  {
    hide Run, AddUtf8, HexChar;
    var a, b, c, d := n / 0x1000, (n / 0x100) % 0x10, (n / 0x10) % 0x10, n % 0x10;
    Hex4Value(n);
    assert Hex4(n) + rest == [HexChar(a)] + ([HexChar(b)] + ([HexChar(c)] + ([HexChar(d)] + rest)));
    RunHexDigit(a, 0, 0, [HexChar(b)] + ([HexChar(c)] + ([HexChar(d)] + rest)), scopes, buffer);
    RunHexDigit(b, 1, a, [HexChar(c)] + ([HexChar(d)] + rest), scopes, buffer);
    RunHexDigit(c, 2, a * 16 + b, [HexChar(d)] + rest, scopes, buffer);
    RunLastHexDigit(d, (a * 16 + b) * 16 + c, rest, scopes, buffer);
  }

  /** The escape of one character is read back as its bytes. */
  lemma RunEscapedChar(c: char, rest: string, scopes: seq<Scope>, buffer: seq<nat>)
    requires c as int < 0x1_0000 && !IsUnsafe(c)
    ensures Run(InString, Machine(EscapedChar(c) + rest, scopes, buffer)) ==
            Run(InString, Machine(rest, scopes, buffer + AddUtf8(c as nat)))
  {
    hide Run, Hex4;
    if c < ' ' || '\U{7F}' <= c {
      assert EscapedChar(c) + rest == ['\\'] + (['u'] + (Hex4(c as nat) + rest));
      RunOn(InString, '\\', ['u'] + (Hex4(c as nat) + rest), scopes, buffer, StringEscape, scopes, buffer);
      RunOn(StringEscape, 'u', Hex4(c as nat) + rest, scopes, buffer, StringEscapeHex(0, 0), scopes, buffer);
      RunHex4(c as nat, rest, scopes, buffer);
    } else {
      RunOn(InString, c, rest, scopes, buffer, InString, scopes, buffer + [c as nat]);
    }
  }

  lemma {:induction false} RunEscaped(s: string, rest: string, scopes: seq<Scope>, buffer: seq<nat>)
    requires InBasicPlane(s) && IsSafe(s)
    ensures Run(InString, Machine(Escaped(s) + rest, scopes, buffer)) == Run(InString, Machine(rest, scopes, buffer + Encoded(s)))
  {
    hide Run, EscapedChar, AddUtf8, IsUnsafe;
    if s == [] {
      assert Escaped(s) + rest == rest && buffer + [] == buffer;
    } else {
      assert Escaped(s) + rest == EscapedChar(s[0]) + (Escaped(s[1..]) + rest);
      RunEscapedChar(s[0], Escaped(s[1..]) + rest, scopes, buffer);
      RunEscaped(s[1..], rest, scopes, buffer + AddUtf8(s[0] as nat));
      assert buffer + AddUtf8(s[0] as nat) + Encoded(s[1..]) == buffer + Encoded(s);
    }
  }

  /** A quoted string of safe characters comes back whole, as a value or as the name of a property. */
  lemma ReadQuoted(s: string, rest: string, scopes: seq<Scope>, buffer: seq<nat>)
    requires InBasicPlane(s) && IsSafe(s)
    ensures TakesValue(scopes) ==>
              Run(Default, Machine(Quoted(s) + rest, scopes, buffer)) == Read(String, Machine(rest, AfterValue(scopes), Encoded(s)))
    ensures scopes != [] && (scopes[0] == InObject || scopes[0] == ObjectComma) ==>
              Run(Default, Machine(Quoted(s) + rest, scopes, buffer)) ==
              Read(PropertyName, Machine(rest, [Name] + scopes[1..], Encoded(s)))
  {
    hide Run, Value;
    assert Quoted(s) + rest == ['"'] + (Escaped(s) + (['"'] + rest));
    RunOn(Default, '"', Escaped(s) + (['"'] + rest), scopes, buffer, InString, scopes, []);
    RunEscaped(s, ['"'] + rest, scopes, []);
    assert [] + Encoded(s) == Encoded(s);
    RunClosingQuote(rest, scopes, Encoded(s));
  }

  lemma RunClosingQuote(rest: string, scopes: seq<Scope>, buffer: seq<nat>)
    ensures TakesValue(scopes) ==>
              Run(InString, Machine(['"'] + rest, scopes, buffer)) == Read(String, Machine(rest, AfterValue(scopes), buffer))
    ensures scopes != [] && (scopes[0] == InObject || scopes[0] == ObjectComma) ==>
              Run(InString, Machine(['"'] + rest, scopes, buffer)) == Read(PropertyName, Machine(rest, [Name] + scopes[1..], buffer))
  {
    assert (['"'] + rest)[1..] == rest;
    if TakesValue(scopes) {
      ValueTaken(String, scopes, buffer, false);
    }
  }

  /** An integer that a float cannot be trusted with is written as a string of its digits. */
  lemma DecimalIsSafe(i: int)
    ensures InBasicPlane(Decimal(i)) && IsSafe(Decimal(i))
    ensures Escaped(Decimal(i)) == Decimal(i) && Encoded(Decimal(i)) == Bytes(Decimal(i))
  {
    DigitsAreDigits(if i < 0 then -i else i);
    PlainIsKept(Decimal(i));
  }

  lemma {:induction false} PlainIsKept(s: string)
    requires forall i :: 0 <= i < |s| ==> IsDigit(s[i]) || s[i] == '-'
    ensures InBasicPlane(s) && IsSafe(s) && Escaped(s) == s && Encoded(s) == Bytes(s)
  {
    if s != [] {
      PlainIsKept(s[1..]);
      assert EscapedChar(s[0]) == [s[0]] && AddUtf8(s[0] as nat) == [s[0] as nat];
    }
  }
}
