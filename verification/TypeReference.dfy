/** References to types, written as JSON and read back. */
module TypeReferences {
  import opened Wrappers
  import opened Utf8
  import opened JsonLexer
  import opened JsonText
  import opened JsonRoundTrip
  import opened JsonReaders
  import opened JsonWriters

  datatype Domain = Boolean | Character | Real | SignedInt | UnsignedInt | Offset | Selector | Pointer | SegPointer

  datatype TypeRef = Word(bits: int) | Primitive(domain: Domain, bits: int) | PointerTo(bits: int, pointee: TypeRef)

  /** Bit sizes are 32-bit integers that are not negative. */
  predicate SizesOk(t: TypeRef) {
    0 <= t.bits < 0x8000_0000 && (t.PointerTo? ==> SizesOk(t.pointee))
  }

  // ---- writing ----

  function DomainChar(d: Domain): char {
    match d
    case Boolean => 'b'
    case Character => 'c'
    case Real => 'r'
    case SignedInt => 'i'
    case UnsignedInt => 'u'
    case Offset => 'o'
    case Selector => 's'
    case Pointer => 'p'
    case SegPointer => 'P'
  }

  function PrimitiveName(t: TypeRef): string
    requires !t.PointerTo?
  {
    [if t.Word? then 'w' else DomainChar(t.domain)] + Decimal(t.bits)
  }

  function JsonOf(t: TypeRef): Json {
    if t.PointerTo? then List([Text(['p']), Integer(t.bits), JsonOf(t.pointee)])
    else Text(PrimitiveName(t))
  }

  lemma {:induction false} JsonIsWritable(t: TypeRef)
    requires SizesOk(t)
    ensures Writable(JsonOf(t)) && LongTree(JsonOf(t)) && SafeTree(JsonOf(t))
  {
    if t.PointerTo? {
      JsonIsWritable(t.pointee);
    } else {
      NameIsSafe(t);
    }
  }

  lemma NameIsSafe(t: TypeRef)
    requires !t.PointerTo?
    ensures InBasicPlane(PrimitiveName(t)) && IsSafe(PrimitiveName(t))
  {
    DecimalIsSafe(t.bits);
  }

  class TypeReferenceSerializer {
    const json: JsonWriter

    constructor (json: JsonWriter)
      ensures this.json == json
    {
      this.json := json;
    }

    method Serialize(t: TypeRef)
      requires SizesOk(t) && Writable(JsonOf(t))
      modifies json
      ensures json.w == old(json.w) + TextOf(JsonOf(t)) && json.needsSeparator == old(json.needsSeparator)
      decreases t, 1
    {
      if t.PointerTo? {
        VisitPointer(t);
      } else {
        json.WriteString(PrimitiveName(t));
      }
    }

    method VisitPointer(t: TypeRef)
      requires t.PointerTo? && SizesOk(t) && Writable(JsonOf(t))
      modifies json
      ensures json.w == old(json.w) + TextOf(JsonOf(t)) && json.needsSeparator == old(json.needsSeparator)
      decreases t, 0
    {
      hide TextOf, Writable, JsonOf, Quoted, Decimal;
      PointerText(t);
      json.BeginList();
      WriteConstructor(t.bits);
      json.WriteSeparator();
      Serialize(t.pointee);
      json.EndList();
    }

    /** The constructor of a pointer type and the size of the pointer. */
    method WriteConstructor(bits: int)
      requires 0 <= bits < 0x8000_0000
      requires json.needsSeparator != [] && !json.needsSeparator[0]
      modifies json
      ensures json.w == old(json.w) + Quoted(['p']) + [','] + TextOf(Integer(bits))
      ensures json.needsSeparator == [true] + old(json.needsSeparator)[1..]
    {
      hide TextOf, Quoted, Decimal;
      json.WriteSeparator();
      json.WriteString(['p']);
      json.WriteSeparator();
      var _ := json.WriteLong(bits);
    }
  }

  lemma PointerText(t: TypeRef)
    requires t.PointerTo? && SizesOk(t) && Writable(JsonOf(t))
    ensures Writable(JsonOf(t.pointee)) && TextOf(Integer(t.bits)) == Decimal(t.bits)
    ensures TextOf(JsonOf(t)) == ['['] + Quoted(['p']) + [','] + Decimal(t.bits) + [','] + TextOf(JsonOf(t.pointee)) + [']']
  {
    hide TextOf, ItemsText, Quoted, Decimal, Writable;
    var v := JsonOf(t);
    WritableItem(v, 2);
    NothingYet(v);
    OneMore(v, 0);
    OneMore(v, 1);
    OneMore(v, 2);
    TextOfParts(v);
    TextOfLeaves(t.bits);
    assert v.items == [Text(['p']), Integer(t.bits), JsonOf(t.pointee)];
  }

  lemma TextOfLeaves(bits: int)
    requires 0 <= bits < 0x8000_0000
    ensures Writable(Text(['p'])) && TextOf(Text(['p'])) == Quoted(['p'])
    ensures Writable(Integer(bits)) && TextOf(Integer(bits)) == Decimal(bits)
  {
  }

  // ---- reading ----

  datatype Failure = Reader(error: Error) | InvalidOperation | IndexOutOfRange | Unsupported | BadNumber

  /** The string of a token. What is not valid UTF-8 reads as replacement characters. */
  function GetString(buffer: seq<nat>): string {
    var s := Decoded(buffer);
    if s.Some? then s.value else seq(|buffer|, i => '\U{FFFD}')
  }

  function Wrap32(i: int): int {
    (i + 0x8000_0000) % 0x1_0000_0000 - 0x8000_0000
  }

  /** What the digits after a type's letter come to in 32-bit arithmetic. */
  function BitSizeOf(s: string): int {
    if s == [] then 0 else Wrap32(BitSizeOf(s[..|s| - 1]) * 10 + (s[|s| - 1] as int - '0' as int))
  }

  method BitSize(value: string) returns (bitsize: int)
    ensures bitsize == BitSizeOf(value)
  {
    bitsize := 0;
    for i := 0 to |value|
      invariant bitsize == BitSizeOf(value[..i])
    {
      assert value[..i + 1][..i] == value[..i];
      bitsize := Wrap32(bitsize * 10 + (value[i] as int - '0' as int));
    }
    assert value[..|value|] == value;
  }

  function NumberOf(bytes: seq<nat>): int {
    if bytes == [] then 0 else NumberOf(bytes[..|bytes| - 1]) * 10 + (bytes[|bytes| - 1] - '0' as nat)
  }

  function DigitCount(bytes: seq<nat>): (n: nat)
    ensures n <= |bytes|
  {
    if bytes != [] && '0' as nat <= bytes[0] <= '9' as nat then 1 + DigitCount(bytes[1..]) else 0
  }

  /** The number that the bytes start with, if there is one and it fits. */
  function TryGetInt32(bytes: seq<nat>): Option<int> {
    var negative := bytes != [] && bytes[0] == '-' as nat;
    var digits := if negative then bytes[1..] else bytes;
    var n := NumberOf(digits[..DigitCount(digits)]);
    var i := if negative then -n else n;
    if DigitCount(digits) == 0 || i < -0x8000_0000 || 0x7FFF_FFFF < i then None else Some(i)
  }

  function PrimitiveOf(s: string): Result<TypeRef, Failure> {
    if |s| < 2 then Err(InvalidOperation)
    else if s[0] == 'i' then Ok(Primitive(SignedInt, BitSizeOf(s[1..])))
    else if s[0] == 'w' then Ok(Word(BitSizeOf(s[1..])))
    else Err(Unsupported)
  }

  /** The type that starts with the token that has just been read, and what there is to read after it. */
  function Parsed(o: Outcome): Result<(TypeRef, Machine), Failure>
    decreases if o.Read? then |o.machine.rest| else 0
  {
    match o
    case Bad(error) => Err(Reader(error))
    case Read(token, m) =>
      if token == String then
        match PrimitiveOf(GetString(m.buffer))
        case Ok(t) => Ok((t, m))
        case Err(failure) => Err(failure)
      else if token == BeginList then
        match Run(Default, m)
        case Bad(error) => Err(Reader(error))
        case Read(String, m1) =>
          NextShrinks(m);
          NextShrinks(m1);
          var ctor := GetString(m1.buffer);
          if ctor == [] then Err(IndexOutOfRange)
          else if ctor[0] != 'p' then Err(Unsupported)
          else ParsedPointer(Run(Default, m1), |m1.rest|)
        case Read(_, _) => Err(InvalidOperation)
      else Err(Unsupported)
  }

  /** The rest of a pointer, from its size on. */
  function ParsedPointer(o: Outcome, bound: nat): Result<(TypeRef, Machine), Failure>
    requires o.Read? && o.token != Eof ==> |o.machine.rest| < bound
    decreases bound
  {
    match o
    case Bad(error) => Err(Reader(error))
    case Read(token, m) =>
      if token != Number then Err(InvalidOperation)
      else
        var bits := TryGetInt32(m.buffer);
        if bits.None? then Err(BadNumber)
        else
          var next := Run(Default, m);
          NextShrinks(m);
          match Parsed(next)
          case Err(failure) => Err(failure)
          case Ok((pointee, m')) =>
            match Run(Default, m')
            case Bad(error) => Err(Reader(error))
            case Read(EndList, m'') => Ok((PointerTo(bits.value, pointee), m''))
            case Read(_, _) => Err(InvalidOperation)
  }

  lemma NextShrinks(m: Machine)
    ensures Run(Default, m).Read? ==> |Run(Default, m).machine.rest| <= |m.rest|
    ensures Run(Default, m).Read? && Run(Default, m).token != Eof ==> |Run(Default, m).machine.rest| < |m.rest|
  {
    if Run(Default, m).Read? {
      RunShrinks(Default, m);
      if Run(Default, m).token != Eof {
        TokenTakesCharacter(m);
      }
    }
  }

  class TypeReferenceDeserializer {
    const rdr: JsonReader

    constructor (rdr: JsonReader)
      ensures this.rdr == rdr
    {
      this.rdr := rdr;
    }

    method Expect(token: Token) returns (failure: Option<Failure>)
      modifies rdr
      ensures match old(rdr.Next())
              case Bad(e) => failure == Some(Reader(e))
              case Read(t, m) =>
                && rdr.token == Eof && rdr.Ahead() == m
                && failure == if t == token then None else Some(InvalidOperation)
    {
      var t := rdr.Read();
      match t {
        case Err(e) => return Some(Reader(e));
        case Ok(tok) => return if tok == token then None else Some(InvalidOperation);
      }
    }

    method Deserialize() returns (r: Result<TypeRef, Failure>)
      modifies rdr
      ensures match Parsed(old(rdr.Next()))
              case Ok((t, m)) => r == Ok(t) && rdr.token == Eof && rdr.Ahead() == m
              case Err(failure) => r == Err(failure)
      decreases if rdr.Next().Read? then |rdr.Next().machine.rest| else 0, 1
    {
      ghost var o := rdr.Next();
      var token := rdr.Read();
      match token {
        case Err(e) => return Err(Reader(e));
        case Ok(String) =>
          var s := GetString(rdr.buffer);
          if |s| < 2 {
            return Err(InvalidOperation);
          }
          var bits := BitSize(s[1..]);
          match s[0] {
            case 'i' => return Ok(Primitive(SignedInt, bits));
            case 'w' => return Ok(Word(bits));
            case _ => return Err(Unsupported);
          }
        case Ok(BeginList) =>
          NextShrinks(rdr.Ahead());
          var failure := Expect(String);
          if failure.Some? {
            return Err(failure.value);
          }
          var ctor := GetString(rdr.buffer);
          if ctor == [] {
            return Err(IndexOutOfRange);
          }
          if ctor[0] == 'p' {
            NextShrinks(rdr.Ahead());
            r := DeserializePointer(|rdr.Ahead().rest|);
          } else {
            return Err(Unsupported);
          }
        case Ok(_) => return Err(Unsupported);
      }
    }

    method DeserializePointer(ghost bound: nat) returns (r: Result<TypeRef, Failure>)
      requires rdr.Next().Read? && rdr.Next().token != Eof ==> |rdr.Next().machine.rest| < bound
      modifies rdr
      ensures match ParsedPointer(old(rdr.Next()), bound)
              case Ok((t, m)) => r == Ok(t) && rdr.token == Eof && rdr.Ahead() == m
              case Err(failure) => r == Err(failure)
      decreases bound, 0
    {
      var failure := Expect(Number);
      if failure.Some? {
        return Err(failure.value);
      }
      var ptrBitsize := TryGetInt32(rdr.buffer);
      if ptrBitsize.None? {
        return Err(BadNumber);
      }
      NextShrinks(rdr.Ahead());
      var dtPointee := Deserialize();
      if dtPointee.Err? {
        return dtPointee;
      }
      failure := Expect(EndList);
      if failure.Some? {
        return Err(failure.value);
      }
      return Ok(PointerTo(ptrBitsize.value, dtPointee.value));
    }
  }

  // ---- the round trip ----

  /** The types that the deserializer knows: words, signed integers and pointers to such. */
  predicate Supported(t: TypeRef) {
    match t
    case Word(_) => true
    case Primitive(domain, _) => domain == SignedInt
    case PointerTo(_, pointee) => Supported(pointee)
  }

  function LastDigit(n: nat): char {
    ('0' as nat + n % 10) as char
  }

  lemma DigitsSplit(n: nat)
    ensures Digits(n) == (if n < 10 then [] else Digits(n / 10)) + [LastDigit(n)]
    ensures LastDigit(n) as nat == '0' as nat + n % 10
  {
  }

  lemma {:induction false} DigitsParse(n: nat)
    ensures NumberOf(Bytes(Digits(n))) == n && DigitCount(Bytes(Digits(n))) == |Bytes(Digits(n))|
  {
    hide Digits, LastDigit, NumberOf, DigitCount, Bytes;
    DigitsSplit(n);
    var last := LastDigit(n) as nat;
    BytesOfOne(LastDigit(n));
    if n >= 10 {
      DigitsParse(n / 10);
      var bytes := Bytes(Digits(n / 10));
      BytesJoin(Digits(n / 10), [LastDigit(n)]);
      NumberJoin(bytes, last);
      CountJoin(bytes, last);
    } else {
      assert [] + [LastDigit(n)] == [LastDigit(n)] && [] + [last] == [last];
      EmptyNumber();
      NumberJoin([], last);
      CountJoin([], last);
    }
  }

  lemma BytesOfOne(c: char)
    ensures Bytes([c]) == [c as nat]
  {
  }

  lemma EmptyNumber()
    ensures NumberOf([]) == 0 && DigitCount([]) == 0
  {
  }

  lemma NumberJoin(bytes: seq<nat>, b: nat)
    ensures NumberOf(bytes + [b]) == NumberOf(bytes) * 10 + (b - '0' as nat)
  {
    assert (bytes + [b])[..|bytes|] == bytes;
  }

  lemma {:induction false} SizeOfDigits(n: nat)
    requires n < 0x8000_0000
    ensures BitSizeOf(Digits(n)) == n
  {
    hide Digits, LastDigit, BitSizeOf;
    DigitsSplit(n);
    if n >= 10 {
      SizeOfDigits(n / 10);
      SizeJoin(Digits(n / 10), LastDigit(n));
    } else {
      EmptySize();
      SizeJoin([], LastDigit(n));
    }
  }

  lemma EmptySize()
    ensures BitSizeOf([]) == 0
  {
  }

  lemma SizeJoin(s: string, c: char)
    ensures BitSizeOf(s + [c]) == Wrap32(BitSizeOf(s) * 10 + (c as int - '0' as int))
  {
    assert (s + [c])[..|s|] == s;
  }

  lemma {:induction false} CountJoin(bytes: seq<nat>, b: nat)
    requires DigitCount(bytes) == |bytes| && '0' as nat <= b <= '9' as nat
    ensures DigitCount(bytes + [b]) == |bytes| + 1
  {
    if bytes == [] {
      assert bytes + [b] == [b];
    } else {
      assert (bytes + [b])[1..] == bytes[1..] + [b];
      CountJoin(bytes[1..], b);
    }
  }

  lemma SizeParses(bits: int)
    requires 0 <= bits < 0x8000_0000
    ensures TryGetInt32(Bytes(Decimal(bits))) == Some(bits)
  {
    hide Digits, NumberOf, DigitCount;
    DigitsParse(bits);
    DigitsAreDigits(bits);
    BytesAt(Digits(bits));
    var bytes := Bytes(Decimal(bits));
    assert bytes[..|bytes|] == bytes;
  }

  lemma BytesAt(s: string)
    ensures s != [] ==> Bytes(s) != [] && Bytes(s)[0] == s[0] as nat
    ensures s != [] && IsDigit(s[0]) ==> Bytes(s)[0] != '-' as nat
  {
  }

  lemma NameParses(t: TypeRef)
    requires !t.PointerTo? && SizesOk(t)
    ensures InBasicPlane(PrimitiveName(t))
    ensures GetString(Encoded(PrimitiveName(t))) == PrimitiveName(t)
    ensures PrimitiveOf(PrimitiveName(t)) == if Supported(t) then Ok(t) else Err(Unsupported)
  {
    hide Digits, Decoded, Encoded, BitSizeOf;
    NameIsSafe(t);
    DecodedEncoded(PrimitiveName(t));
    SizeOfDigits(t.bits);
    DigitsAreDigits(t.bits);
    assert PrimitiveName(t)[1..] == Digits(t.bits);
  }

  /** The tokens of a pointer type one after the other. */
  lemma PointerParsed(m0: Machine, m1: Machine, m2: Machine, bits: int)
    requires Run(Default, m0) == Read(String, m1) && GetString(m1.buffer) == ['p']
    requires Run(Default, m1) == Read(Number, m2) && TryGetInt32(m2.buffer) == Some(bits)
    ensures var o := Parsed(Read(BeginList, m0));
            match Parsed(Run(Default, m2))
            case Err(failure) => o == Err(failure)
            case Ok((pointee, m3)) =>
              Run(Default, m3).Read? && Run(Default, m3).token == EndList ==>
                o == Ok((PointerTo(bits, pointee), Run(Default, m3).machine))
  {
    hide Run, GetString, TryGetInt32;
  }

  /** Reading stands at the text of the type, and the whole of it is read. */
  ghost predicate ParsesTo(o: Outcome, t: TypeRef, rest: string, scopes: seq<Scope>) {
    if Supported(t) then exists b :: Parsed(o) == Ok((t, Machine(rest, scopes, b)))
    else Parsed(o) == Err(Unsupported)
  }

  /** A reference to a type comes back exactly if the deserializer knows the type. */
  lemma {:induction false} TypeRoundTrips(t: TypeRef, rest: string, scopes: seq<Scope>, buffer: seq<nat>)
    requires SizesOk(t) && Writable(JsonOf(t)) && TakesValue(scopes)
    ensures ParsesTo(Run(Default, Machine(TextOf(JsonOf(t)) + rest, scopes, buffer)), t, rest, AfterValue(scopes))
    decreases t, 1
  {
    hide Run, GetString, Decimal, Quoted, Encoded, PrimitiveOf;
    if t.PointerTo? {
      PointerRoundTrips(t, rest, scopes, buffer);
    } else {
      NameIsSafe(t);
      NameParses(t);
      ReadQuoted(PrimitiveName(t), rest, scopes, buffer);
    }
  }

  lemma {:induction false} PointerRoundTrips(t: TypeRef, rest: string, scopes: seq<Scope>, buffer: seq<nat>)
    requires t.PointerTo? && SizesOk(t) && Writable(JsonOf(t)) && TakesValue(scopes)
    ensures ParsesTo(Run(Default, Machine(TextOf(JsonOf(t)) + rest, scopes, buffer)), t, rest, AfterValue(scopes))
    decreases t, 0
  {
    hide Run, Parsed, GetString, Decimal, Quoted, Encoded, TextOf, JsonOf, Writable, SizesOk, TryGetInt32, AfterValue;
    PointerText(t);
    PointeeOk(t);
    var inner, comma := [InList] + scopes, [ListComma] + scopes;
    var text3 := [']'] + rest;
    var text2 := TextOf(JsonOf(t.pointee)) + text3;
    var text1 := Decimal(t.bits) + ([','] + text2);
    var text0 := Quoted(['p']) + ([','] + text1);
    assert TextOf(JsonOf(t)) + rest == ['['] + text0;
    ReadBegin(text0, scopes, buffer);
    ConstructorReads([','] + text1, scopes, buffer);
    var p := Encoded(['p']);
    SkipComma(text1, InList, scopes, p);
    AfterItem(scopes);
    ReadDecimal(t.bits, [','] + text2, comma, p);
    var bits := Bytes(Decimal(t.bits));
    SkipComma(text2, InList, scopes, bits);
    TypeRoundTrips(t.pointee, text3, comma, bits);
    PointerParsed(Machine(text0, inner, buffer), Machine([','] + text1, inner, p), Machine([','] + text2, inner, bits), t.bits);
    if Supported(t.pointee) {
      var b :| Parsed(Run(Default, Machine(text2, comma, bits))) == Ok((t.pointee, Machine(text3, inner, b)));
      ReadEnd(rest, InList, scopes, b);
    }
  }

  lemma AfterItem(scopes: seq<Scope>)
    ensures AfterValue([ListComma] + scopes) == [InList] + scopes == AfterValue([InList] + scopes)
  {
  }

  lemma PointeeOk(t: TypeRef)
    requires t.PointerTo? && SizesOk(t)
    ensures SizesOk(t.pointee) && 0 <= t.bits < 0x8000_0000 && TryGetInt32(Bytes(Decimal(t.bits))) == Some(t.bits)
  {
    SizeParses(t.bits);
  }

  lemma ConstructorReads(rest: string, scopes: seq<Scope>, buffer: seq<nat>)
    ensures InBasicPlane(['p']) && GetString(Encoded(['p'])) == ['p']
    ensures Run(Default, Machine(Quoted(['p']) + rest, [InList] + scopes, buffer)) ==
            Read(String, Machine(rest, [InList] + scopes, Encoded(['p'])))
  {
    AfterItem(scopes);
    ReadQuoted(['p'], rest, [InList] + scopes, buffer);
    DecodedEncoded(['p']);
  }
}
