/** The writer of JSON, which keeps a stack of whether a separator is due. */
module JsonWriters {
  import opened Wrappers
  import opened Utf8
  import opened JsonText

  const MIN_LONG: int := -0x8000_0000_0000_0000
  const MAX_LONG: int := 0x7FFF_FFFF_FFFF_FFFF

  /** The absolute value of the least 64-bit integer overflows. */
  ghost predicate LongTree(v: Json)
    decreases v
  {
    match v
    case Integer(i) => MIN_LONG < i <= MAX_LONG
    case Text(_) => true
    case List(items) => forall i :: 0 <= i < |items| ==> LongTree(items[i])
    case Object(fields) => forall i :: 0 <= i < |fields| ==> LongTree(fields[i].value)
  }

  lemma {:induction false} EscapedAppend(s: string, c: char)
    requires InBasicPlane(s) && c as int < 0x1_0000
    ensures Escaped(s + [c]) == Escaped(s) + EscapedChar(c)
  {
    if s == [] {
      assert s + [c] == [c];
    } else {
      assert (s + [c])[1..] == s[1..] + [c];
      EscapedAppend(s[1..], c);
    }
  }

  lemma EscapedPrefix(s: string, k: nat)
    requires InBasicPlane(s) && k <= |s|
    ensures k < |s| ==> Escaped(s[..k + 1]) == Escaped(s[..k]) + EscapedChar(s[k])
    ensures Escaped([]) == [] && s[..0] == []
  {
    if k < |s| {
      assert s[..k + 1] == s[..k] + [s[k]];
      EscapedAppend(s[..k], s[k]);
    }
  }

  lemma NothingYet(v: Json)
    requires Writable(v)
    ensures v.List? ==> ItemsText(v, 0) == []
    ensures v.Object? ==> FieldsText(v, 0) == []
  {
  }

  lemma TextOfParts(v: Json)
    requires Writable(v)
    ensures v.List? ==> TextOf(v) == ['['] + ItemsText(v, |v.items|) + [']']
    ensures v.Object? ==> TextOf(v) == ['{'] + FieldsText(v, |v.fields|) + ['}']
  {
  }

  /** One more item, or one more field, of the text. */
  lemma OneMore(v: Json, n: nat)
    requires Writable(v)
    ensures v.List? && n < |v.items| ==> ItemsText(v, n + 1) == ItemsText(v, n) + Separator(n) + TextOf(v.items[n])
    ensures v.Object? && n < |v.fields| ==>
              FieldsText(v, n + 1) == FieldsText(v, n) + Separator(n) + Quoted(v.fields[n].key) + [':'] + TextOf(v.fields[n].value)
  {
  }

  lemma WritableItem(v: Json, n: nat)
    requires Writable(v)
    ensures v.List? && n < |v.items| ==> Writable(v.items[n])
    ensures v.Object? && n < |v.fields| ==> InBasicPlane(v.fields[n].key) && Writable(v.fields[n].value)
  {
  }

  class JsonWriter {
    var w: string
    var needsSeparator: seq<bool>   // innermost list or object first

    constructor ()
      ensures w == [] && needsSeparator == []
    {
      w, needsSeparator := [], [];
    }

    method BeginList()
      modifies this
      ensures w == old(w) + ['['] && needsSeparator == [false] + old(needsSeparator)
    {
      needsSeparator := [false] + needsSeparator;
      w := w + ['['];
    }

    method EndList()
      requires needsSeparator != []
      modifies this
      ensures w == old(w) + [']'] && needsSeparator == old(needsSeparator)[1..]
    {
      needsSeparator := needsSeparator[1..];
      w := w + [']'];
    }

    method BeginObject()
      modifies this
      ensures w == old(w) + ['{'] && needsSeparator == [false] + old(needsSeparator)
    {
      needsSeparator := [false] + needsSeparator;
      w := w + ['{'];
    }

    method EndObject()
      requires needsSeparator != []
      modifies this
      ensures w == old(w) + ['}'] && needsSeparator == old(needsSeparator)[1..]
    {
      needsSeparator := needsSeparator[1..];
      w := w + ['}'];
    }

    method WriteString(s: string)
      requires InBasicPlane(s)
      modifies this`w
      ensures w == old(w) + Quoted(s)
    {
      hide Escaped, EscapedChar;
      w := w + ['"'];
      EscapedPrefix(s, 0);
      for k := 0 to |s|
        invariant w == old(w) + ['"'] + Escaped(s[..k])
      {
        EscapedPrefix(s, k);
        WriteChar(s[k]);
      }
      assert s[..|s|] == s;
      w := w + ['"'];
    }

    method WriteChar(c: char)
      requires c as int < 0x1_0000
      modifies this`w
      ensures w == old(w) + EscapedChar(c)
    {
      if c == '\U{8}' || c == '\t' || c == '\n' || c == '\U{C}' || c == '\r' {
        // the letter of the escape is missing
        w := w + ['\\'];
      } else if c == '"' {
        w := w + ['\\', '"'];
      } else if c == '\\' {
        w := w + ['\\', '\\'];
      } else if c < ' ' || '\U{7F}' <= c {
        w := w + (['\\', 'u'] + Hex4(c as nat));
      } else {
        w := w + [c];
      }
    }

    /** An integer, as a string if a float cannot be trusted with it; the least one has no absolute value. */
    method WriteLong(i64: int) returns (overflows: bool)
      requires MIN_LONG <= i64 <= MAX_LONG
      modifies this`w
      ensures overflows <==> i64 == MIN_LONG
      ensures w == old(w) + (if overflows then [] else TextOf(Integer(i64)))
    {
      overflows := i64 == MIN_LONG;
      if overflows {
        return;
      }
      if (if i64 < 0 then -i64 else i64) > MAX_EXACT {
        DecimalIsSafe(i64);
        WriteString(Decimal(i64));
      } else {
        w := w + Decimal(i64);
      }
    }

    method WriteSeparator()
      requires needsSeparator != []
      modifies this
      ensures w == old(w) + (if old(needsSeparator)[0] then [','] else [])
      ensures needsSeparator == [true] + old(needsSeparator)[1..]
    {
      if needsSeparator[0] {
        w := w + [','];
      } else {
        needsSeparator := needsSeparator[1..];
        needsSeparator := [true] + needsSeparator;
      }
    }

    /** Writes a tree the way the serializers do: every item and every field after a separator. */
    method WriteTree(v: Json)
      requires Writable(v) && LongTree(v)
      modifies this
      ensures w == old(w) + TextOf(v) && needsSeparator == old(needsSeparator)
      decreases v, 1, 0
    {
      match v {
        case Integer(i) => var _ := WriteLong(i);
        case Text(s) => WriteString(s);
        case List(items) => WriteList(v);
        case Object(fields) => WriteObject(v);
      }
    }

    method WriteList(v: Json)
      requires v.List? && Writable(v) && LongTree(v)
      modifies this
      ensures w == old(w) + TextOf(v) && needsSeparator == old(needsSeparator)
      decreases v, 0, 1
    {
      hide Writable, LongTree, ItemsText, TextOf;
      NothingYet(v);
      TextOfParts(v);
      BeginList();
      for n := 0 to |v.items|
        invariant w == old(w) + ['['] + ItemsText(v, n)
        invariant needsSeparator == [n > 0] + old(needsSeparator)
      {
        OneMore(v, n);
        WritableItem(v, n);
        WriteListItem(v, n);
      }
      EndList();
      assert w == old(w) + TextOf(v);
    }

    method WriteObject(v: Json)
      requires v.Object? && Writable(v) && LongTree(v)
      modifies this
      ensures w == old(w) + TextOf(v) && needsSeparator == old(needsSeparator)
      decreases v, 0, 1
    {
      hide Writable, LongTree, FieldsText, TextOf, Quoted;
      NothingYet(v);
      TextOfParts(v);
      BeginObject();
      for n := 0 to |v.fields|
        invariant w == old(w) + ['{'] + FieldsText(v, n)
        invariant needsSeparator == [n > 0] + old(needsSeparator)
      {
        OneMore(v, n);
        WritableItem(v, n);
        WriteKeyValue(v, n);
      }
      EndObject();
      assert w == old(w) + TextOf(v);
    }

    /** The item of a list: a separator, if there was one before, and the item. */
    method WriteListItem(v: Json, n: nat)
      requires v.List? && n < |v.items| && Writable(v) && LongTree(v)
      requires needsSeparator != [] && needsSeparator[0] == (n > 0)
      modifies this
      ensures w == old(w) + Separator(n) + TextOf(v.items[n])
      ensures needsSeparator == [true] + old(needsSeparator)[1..]
      decreases v, 0, 0
    {
      WriteSeparator();
      WriteTree(v.items[n]);
    }

    method WriteKeyValue(v: Json, n: nat)
      requires v.Object? && n < |v.fields| && Writable(v) && LongTree(v)
      requires needsSeparator != [] && needsSeparator[0] == (n > 0)
      modifies this
      ensures w == old(w) + Separator(n) + Quoted(v.fields[n].key) + [':'] + TextOf(v.fields[n].value)
      ensures needsSeparator == [true] + old(needsSeparator)[1..]
      decreases v, 0, 0
    {
      WriteSeparator();
      WriteString(v.fields[n].key);
      w := w + [':'];
      WriteTree(v.fields[n].value);
    }
  }
}
