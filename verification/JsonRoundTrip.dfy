/** Reading the text of a tree gives the tokens of the tree. */
module JsonRoundTrip {
  import opened Wrappers
  import opened Utf8
  import opened JsonLexer
  import opened JsonText

  ghost predicate SafeTree(v: Json)
    decreases v
  {
    match v
    case Integer(_) => true
    case Text(s) => IsSafe(s)
    case List(items) => forall i :: 0 <= i < |items| ==> SafeTree(items[i])
    case Object(fields) => forall i :: 0 <= i < |fields| ==> IsSafe(fields[i].key) && SafeTree(fields[i].value)
  }

  lemma YieldsSame(m: Machine, m': Machine, e: seq<Event>, rest: string, scopes: seq<Scope>)
    requires Run(Default, m) == Run(Default, m') && e != [] && Yields(m', e, rest, scopes)
    ensures Yields(m, e, rest, scopes)
  {
  }

  lemma YieldsNothing(m: Machine)
    ensures Yields(m, [], m.rest, m.scopes)
  {
  }

  lemma SkipComma(rest: string, scope: Scope, outer: seq<Scope>, buffer: seq<nat>)
    requires scope == InList || scope == PropertyValue
    ensures Run(Default, Machine([','] + rest, [scope] + outer, buffer)) ==
            Run(Default, Machine(rest, [if scope == InList then ListComma else ObjectComma] + outer, buffer))
  {
    hide Run;
    RunOn(Default, ',', rest, [scope] + outer, buffer, Default, [if scope == InList then ListComma else ObjectComma] + outer, buffer);
  }

  lemma SkipColon(rest: string, outer: seq<Scope>, buffer: seq<nat>)
    ensures Run(Default, Machine([':'] + rest, [Name] + outer, buffer)) == Run(Default, Machine(rest, [Colon] + outer, buffer))
  {
    hide Run;
    RunOn(Default, ':', rest, [Name] + outer, buffer, Default, [Colon] + outer, buffer);
  }

  lemma ReadBegin(rest: string, scopes: seq<Scope>, buffer: seq<nat>)
    ensures Run(Default, Machine(['['] + rest, scopes, buffer)) == Read(BeginList, Machine(rest, [InList] + scopes, buffer))
    ensures Run(Default, Machine(['{'] + rest, scopes, buffer)) == Read(BeginObject, Machine(rest, [InObject] + scopes, buffer))
  {
    assert (['['] + rest)[1..] == rest && (['{'] + rest)[1..] == rest;
  }

  lemma ReadEnd(rest: string, scope: Scope, scopes: seq<Scope>, buffer: seq<nat>)
    requires TakesValue(scopes)
    ensures scope == InList ==>
              Run(Default, Machine([']'] + rest, [scope] + scopes, buffer)) == Read(EndList, Machine(rest, AfterValue(scopes), buffer))
    ensures scope == InObject || scope == PropertyValue ==>
              Run(Default, Machine(['}'] + rest, [scope] + scopes, buffer)) == Read(EndObject, Machine(rest, AfterValue(scopes), buffer))
  {
    assert ([']'] + rest)[1..] == rest && (['}'] + rest)[1..] == rest && ([scope] + scopes)[1..] == scopes;
    ValueTaken(EndList, scopes, buffer, false);
    ValueTaken(EndObject, scopes, buffer, false);
  }

  lemma EventsNotEmpty(v: Json, depth: nat)
    requires Writable(v)
    ensures Events(v, depth) != []
  {
  }

  /** What may stand after an item or a field of the text of a tree. */
  predicate Ends(rest: string) {
    rest != [] && (rest[0] == ',' || rest[0] == ']' || rest[0] == '}')
  }

  lemma {:induction false} ReadTree(v: Json, rest: string, scopes: seq<Scope>, buffer: seq<nat>)
    requires Writable(v) && SafeTree(v) && TakesValue(scopes) && Delimited(rest, scopes)
    ensures Yields(Machine(TextOf(v) + rest, scopes, buffer), Events(v, |scopes|), rest, AfterValue(scopes))
    decreases v, 1, 0
  {
    hide Run, Yields, AfterValue, Decimal, Encoded, Escaped, AddUtf8;
    match v
    case Integer(i) =>
      if IsExact(i) {
        ReadDecimal(i, rest, scopes, buffer);
        YieldsOne(Machine(TextOf(v) + rest, scopes, buffer), Number, Machine(rest, AfterValue(scopes), Bytes(Decimal(i))));
      } else {
        DecimalIsSafe(i);
        assert TextOf(v) == Quoted(Decimal(i));
        ReadQuoted(Decimal(i), rest, scopes, buffer);
        YieldsOne(Machine(TextOf(v) + rest, scopes, buffer), String, Machine(rest, AfterValue(scopes), Bytes(Decimal(i))));
      }
    case Text(s) =>
      ReadQuoted(s, rest, scopes, buffer);
      YieldsOne(Machine(TextOf(v) + rest, scopes, buffer), String, Machine(rest, AfterValue(scopes), Encoded(s)));
    case List(items) => ReadList(v, rest, scopes, buffer);
    case Object(fields) => ReadObject(v, rest, scopes, buffer);
  }

  lemma {:induction false} ReadList(v: Json, rest: string, scopes: seq<Scope>, buffer: seq<nat>)
    requires v.List? && Writable(v) && SafeTree(v) && TakesValue(scopes)
    ensures Yields(Machine(TextOf(v) + rest, scopes, buffer), Events(v, |scopes|), rest, AfterValue(scopes))
    decreases v, 0, |v.items| + 1
  {
    hide Run, Yields, AfterValue, Writable, SafeTree, ItemsText, ItemsEvents, Value;
    var n, inner := |v.items|, [InList] + scopes;
    var text := ItemsText(v, n) + ([']'] + rest);
    assert TextOf(v) + rest == ['['] + text;
    ReadBegin(text, scopes, buffer);
    YieldsOne(Machine(['['] + text, scopes, buffer), BeginList, Machine(text, inner, buffer));
    forall b
      ensures Yields(Machine(text, inner, b), ItemsEvents(v, n, |scopes| + 1), [']'] + rest, inner)
      ensures Yields(Machine([']'] + rest, inner, b), [Event(EndList, [], |scopes|)], rest, AfterValue(scopes))
    {
      ReadItems(v, n, [']'] + rest, scopes, b);
      ReadEnd(rest, InList, scopes, b);
      YieldsOne(Machine([']'] + rest, inner, b), EndList, Machine(rest, AfterValue(scopes), b));
    }
    var e0, e1, e2 := [Event(BeginList, [], |scopes| + 1)], ItemsEvents(v, n, |scopes| + 1), [Event(EndList, [], |scopes|)];
    YieldsThen(Machine(['['] + text, scopes, buffer), e0, text, inner, e1, [']'] + rest, inner);
    YieldsThen(Machine(['['] + text, scopes, buffer), e0 + e1, [']'] + rest, inner, e2, rest, AfterValue(scopes));
  }

  lemma {:induction false} ReadItems(v: Json, n: nat, rest: string, scopes: seq<Scope>, buffer: seq<nat>)
    requires v.List? && Writable(v) && SafeTree(v) && n <= |v.items| && (n > 0 ==> Ends(rest))
    ensures Yields(Machine(ItemsText(v, n) + rest, [InList] + scopes, buffer), ItemsEvents(v, n, |scopes| + 1), rest, [InList] + scopes)
    decreases v, 0, n
  {
    hide Run, Yields, TextOf, Events;
    var inner := [InList] + scopes;
    if n == 0 {
      assert ItemsText(v, n) + rest == rest;
      YieldsNothing(Machine(rest, inner, buffer));
    } else {
      var item, depth := v.items[n - 1], |scopes| + 1;
      var text, events := Separator(n - 1) + (TextOf(item) + rest), Events(item, depth);
      assert ItemsText(v, n) + rest == ItemsText(v, n - 1) + text;
      forall b
        ensures Yields(Machine(text, inner, b), events, rest, inner)
      {
        ReadItem(v, n, rest, scopes, b);
      }
      ReadItems(v, n - 1, text, scopes, buffer);
      YieldsThen(Machine(ItemsText(v, n) + rest, inner, buffer), ItemsEvents(v, n - 1, depth), text, inner, events, rest, inner);
      assert ItemsEvents(v, n, depth) == ItemsEvents(v, n - 1, depth) + events;
    }
  }

  lemma {:induction false} ReadItem(v: Json, n: nat, rest: string, scopes: seq<Scope>, buffer: seq<nat>)
    requires v.List? && Writable(v) && SafeTree(v) && 0 < n <= |v.items| && Ends(rest)
    ensures Yields(Machine(Separator(n - 1) + (TextOf(v.items[n - 1]) + rest), [InList] + scopes, buffer),
                   Events(v.items[n - 1], |scopes| + 1), rest, [InList] + scopes)
    decreases v, 0, 0
  {
    hide Run, Yields;
    var item, inner, events := v.items[n - 1], [InList] + scopes, Events(v.items[n - 1], |scopes| + 1);
    var text := TextOf(item) + rest;
    if n == 1 {
      assert Separator(0) + text == text;
      ReadTree(item, rest, inner, buffer);
    } else {
      SkipComma(text, InList, scopes, buffer);
      ReadTree(item, rest, [ListComma] + scopes, buffer);
      EventsNotEmpty(item, |scopes| + 1);
      YieldsSame(Machine([','] + text, inner, buffer), Machine(text, [ListComma] + scopes, buffer), events, rest, inner);
    }
  }

  /** The scope of an object after its first `n` fields. */
  function FieldsScope(n: nat): Scope {
    if n == 0 then InObject else PropertyValue
  }

  lemma {:induction false} ReadObject(v: Json, rest: string, scopes: seq<Scope>, buffer: seq<nat>)
    requires v.Object? && Writable(v) && SafeTree(v) && TakesValue(scopes)
    ensures Yields(Machine(TextOf(v) + rest, scopes, buffer), Events(v, |scopes|), rest, AfterValue(scopes))
    decreases v, 0, |v.fields| + 1
  {
    hide Run, Yields, AfterValue, Writable, SafeTree, FieldsText, FieldsEvents, Value;
    var n := |v.fields|;
    var inner, last := [InObject] + scopes, [FieldsScope(n)] + scopes;
    var text := FieldsText(v, n) + (['}'] + rest);
    assert TextOf(v) + rest == ['{'] + text;
    ReadBegin(text, scopes, buffer);
    YieldsOne(Machine(['{'] + text, scopes, buffer), BeginObject, Machine(text, inner, buffer));
    forall b
      ensures Yields(Machine(text, inner, b), FieldsEvents(v, n, |scopes| + 1), ['}'] + rest, last)
      ensures Yields(Machine(['}'] + rest, last, b), [Event(EndObject, [], |scopes|)], rest, AfterValue(scopes))
    {
      ReadFields(v, n, ['}'] + rest, scopes, b);
      ReadEnd(rest, FieldsScope(n), scopes, b);
      YieldsOne(Machine(['}'] + rest, last, b), EndObject, Machine(rest, AfterValue(scopes), b));
    }
    var e0, e1, e2 := [Event(BeginObject, [], |scopes| + 1)], FieldsEvents(v, n, |scopes| + 1), [Event(EndObject, [], |scopes|)];
    YieldsThen(Machine(['{'] + text, scopes, buffer), e0, text, inner, e1, ['}'] + rest, last);
    YieldsThen(Machine(['{'] + text, scopes, buffer), e0 + e1, ['}'] + rest, last, e2, rest, AfterValue(scopes));
  }

  /** What follows the first `n - 1` fields of an object, up to the end of the next one and `rest`. */
  ghost function FieldText(v: Json, n: nat, rest: string): string
    requires v.Object? && Writable(v) && 0 < n <= |v.fields|
  {
    Separator(n - 1) + (Quoted(v.fields[n - 1].key) + ([':'] + (TextOf(v.fields[n - 1].value) + rest)))
  }

  ghost function FieldEvents(v: Json, n: nat, depth: nat): seq<Event>
    requires v.Object? && Writable(v) && 0 < n <= |v.fields|
  {
    [Event(PropertyName, Encoded(v.fields[n - 1].key), depth)] + Events(v.fields[n - 1].value, depth)
  }

  lemma FieldsOneMore(v: Json, n: nat, rest: string, depth: nat)
    requires v.Object? && Writable(v) && 0 < n <= |v.fields|
    ensures FieldsText(v, n) + rest == FieldsText(v, n - 1) + FieldText(v, n, rest)
    ensures FieldsEvents(v, n, depth) == FieldsEvents(v, n - 1, depth) + FieldEvents(v, n, depth)
    ensures n > 1 ==> Ends(FieldText(v, n, rest))
  {
    hide TextOf, Events, Encoded, Quoted, Separator;
    Regrouped(FieldsText(v, n - 1), Separator(n - 1), Quoted(v.fields[n - 1].key), TextOf(v.fields[n - 1].value), rest);
    EventsRegrouped(FieldsEvents(v, n - 1, depth), Event(PropertyName, Encoded(v.fields[n - 1].key), depth),
                    Events(v.fields[n - 1].value, depth));
    SeparatorEnds(n - 1, Quoted(v.fields[n - 1].key) + ([':'] + (TextOf(v.fields[n - 1].value) + rest)));
  }

  lemma NoFields(v: Json, rest: string, depth: nat)
    requires v.Object? && Writable(v)
    ensures FieldsText(v, 0) + rest == rest && FieldsEvents(v, 0, depth) == []
  {
  }

  lemma Regrouped(before: string, separator: string, key: string, value: string, rest: string)
    ensures before + separator + key + [':'] + value + rest == before + (separator + (key + ([':'] + (value + rest))))
  {
  }

  lemma EventsRegrouped(before: seq<Event>, name: Event, value: seq<Event>)
    ensures before + [name] + value == before + ([name] + value)
  {
  }

  lemma SeparatorEnds(before: nat, text: string)
    ensures before > 0 ==> Ends(Separator(before) + text)
  {
  }

  lemma {:induction false} ReadFields(v: Json, n: nat, rest: string, scopes: seq<Scope>, buffer: seq<nat>)
    requires v.Object? && Writable(v) && SafeTree(v) && n <= |v.fields| && (n > 0 ==> Ends(rest))
    ensures Yields(Machine(FieldsText(v, n) + rest, [InObject] + scopes, buffer), FieldsEvents(v, n, |scopes| + 1),
                   rest, [FieldsScope(n)] + scopes)
    decreases v, 0, n
  {
    hide Run, Yields, Writable, SafeTree, Ends, FieldText, FieldEvents, FieldsText, FieldsEvents;
    var depth := |scopes| + 1;
    if n == 0 {
      NoFields(v, rest, depth);
      YieldsNothing(Machine(rest, [InObject] + scopes, buffer));
    } else {
      FieldsOneMore(v, n, rest, depth);
      var before, after := [FieldsScope(n - 1)] + scopes, [PropertyValue] + scopes;
      var text, events := FieldText(v, n, rest), FieldEvents(v, n, depth);
      forall b
        ensures Yields(Machine(text, before, b), events, rest, after)
      {
        ReadField(v, n, rest, scopes, b);
      }
      ReadFields(v, n - 1, text, scopes, buffer);
      YieldsThen(Machine(FieldsText(v, n) + rest, [InObject] + scopes, buffer), FieldsEvents(v, n - 1, depth), text,
                 before, events, rest, after);
    }
  }

  lemma {:induction false} ReadField(v: Json, n: nat, rest: string, scopes: seq<Scope>, buffer: seq<nat>)
    requires v.Object? && Writable(v) && SafeTree(v) && 0 < n <= |v.fields| && Ends(rest)
    ensures Yields(Machine(FieldText(v, n, rest), [FieldsScope(n - 1)] + scopes, buffer), FieldEvents(v, n, |scopes| + 1),
                   rest, [PropertyValue] + scopes)
    decreases v, 0, 0
  {
    hide Run, Encoded, Escaped, Quoted;
    var f, depth := v.fields[n - 1], |scopes| + 1;
    var value := TextOf(f.value) + rest;
    var named := Quoted(f.key) + ([':'] + value);
    var before := [if n == 1 then InObject else ObjectComma] + scopes;
    var name := [Event(PropertyName, Encoded(f.key), depth)];
    ReadQuoted(f.key, [':'] + value, before, buffer);
    assert [Name] + before[1..] == [Name] + scopes;
    YieldsOne(Machine(named, before, buffer), PropertyName, Machine([':'] + value, [Name] + scopes, Encoded(f.key)));
    forall b
      ensures Yields(Machine([':'] + value, [Name] + scopes, b), Events(f.value, depth), rest, [PropertyValue] + scopes)
    {
      SkipColon(value, scopes, b);
      ReadTree(f.value, rest, [Colon] + scopes, b);
      EventsNotEmpty(f.value, depth);
      YieldsSame(Machine([':'] + value, [Name] + scopes, b), Machine(value, [Colon] + scopes, b),
                 Events(f.value, depth), rest, [PropertyValue] + scopes);
    }
    YieldsThen(Machine(named, before, buffer), name, [':'] + value, [Name] + scopes, Events(f.value, depth), rest, [PropertyValue] + scopes);
    if n == 1 {
      assert Separator(0) + named == named;
    } else {
      SkipComma(named, PropertyValue, scopes, buffer);
      YieldsSame(Machine([','] + named, [PropertyValue] + scopes, buffer), Machine(named, before, buffer),
                 name + Events(f.value, depth), rest, [PropertyValue] + scopes);
    }
  }

  /** A whole document: exactly the tokens of the tree, and then the end of the stream for ever. */
  lemma DocumentRoundTrips(v: Json)
    requires Writable(v) && SafeTree(v)
    ensures Yields(Machine(TextOf(v), [], []), Events(v, 0) + [Event(Eof, [], 0), Event(Eof, [], 0)], [], [])
  {
    assert TextOf(v) + [] == TextOf(v);
    ReadTree(v, [], [], []);
    forall b
      ensures Yields(Machine([], [], b), [Event(Eof, [], 0), Event(Eof, [], 0)], [], [])
    {
      assert Run(Default, Machine([], [], b)) == Read(Eof, Machine([], [], b));
      YieldsOne(Machine([], [], b), Eof, Machine([], [], b));
    }
    YieldsThen(Machine(TextOf(v), [], []), Events(v, 0), [], [], [Event(Eof, [], 0), Event(Eof, [], 0)], [], []);
  }
}
