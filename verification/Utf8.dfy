/** How the reader of JSON turns the character number of an escape into bytes. */
module Utf8 {
  import opened Wrappers

  /** The bytes that the reader adds for a character number. */
  function AddUtf8(h: nat): (r: seq<nat>)
    requires h < 0x11_0000
    ensures 1 <= |r| <= 4 && forall i :: 0 <= i < |r| ==> r[i] < 256
    ensures h < 0x1_0000 ==> |r| <= 3
  {
    if h < 0x80 then [h]
    else if h < 0x800 then [0xC0 + (h / 0x40) % 0x20, 0x80 + h % 0x40]
    else if h < 0x1_0000 then [0xE0 + (h / 0x1000) % 0x10, 0x80 + (h / 0x40) % 0x40, 0x80 + h % 0x40]
    else [0xF0 + (h / 0x4_0000) % 0x08, 0x80 + (h / 0x1000) % 0x40, 0x80 + (h / 0x40) % 0x40, 0x80 + h % 0x40]
  }

  /** Shifting, masking and or-ing 32-bit numbers is the arithmetic above. */
  lemma BitFields(h: bv32)
    requires h < 0x11_0000
    ensures (0xC0 | ((h >> 6) & 0x1F)) == 0xC0 + (h / 0x40) % 0x20
    ensures (0xE0 | ((h >> 12) & 0x0F)) == 0xE0 + (h / 0x1000) % 0x10
    ensures (0xF0 | ((h >> 18) & 0x07)) == 0xF0 + (h / 0x4_0000) % 0x08
    ensures (0x80 | ((h >> 12) & 0x3F)) == 0x80 + (h / 0x1000) % 0x40
    ensures (0x80 | ((h >> 6) & 0x3F)) == 0x80 + (h / 0x40) % 0x40
    ensures (0x80 | (h & 0x3F)) == 0x80 + h % 0x40
  {
  }

  predicate IsTail(b: nat) {
    0x80 <= b < 0xC0
  }

  predicate IsSurrogate(h: nat) {
    0xD800 <= h < 0xE000
  }

  /** The octet sequences of section 3 of RFC 3629: the first character and the octets it takes. */
  function First(bytes: seq<nat>): Option<(nat, nat)> {
    if |bytes| >= 1 && bytes[0] < 0x80 then
      Some((bytes[0], 1))
    else if |bytes| >= 2 && 0xC2 <= bytes[0] < 0xE0 && IsTail(bytes[1]) then
      Some(((bytes[0] - 0xC0) * 0x40 + (bytes[1] - 0x80), 2))
    else if |bytes| >= 3 && 0xE0 <= bytes[0] < 0xF0 && IsTail(bytes[1]) && IsTail(bytes[2])
            && (bytes[0] == 0xE0 ==> 0xA0 <= bytes[1]) && (bytes[0] == 0xED ==> bytes[1] < 0xA0) then
      Some(((bytes[0] - 0xE0) * 0x1000 + (bytes[1] - 0x80) * 0x40 + (bytes[2] - 0x80), 3))
    else if |bytes| >= 4 && 0xF0 <= bytes[0] < 0xF5 && IsTail(bytes[1]) && IsTail(bytes[2]) && IsTail(bytes[3])
            && (bytes[0] == 0xF0 ==> 0x90 <= bytes[1]) && (bytes[0] == 0xF4 ==> bytes[1] < 0x90) then
      Some(((bytes[0] - 0xF0) * 0x4_0000 + (bytes[1] - 0x80) * 0x1000 + (bytes[2] - 0x80) * 0x40 + (bytes[3] - 0x80), 4))
    else None
  }

  lemma Digits64(a: nat, b: nat, c: nat, d: nat)
    requires b < 0x40 && c < 0x40 && d < 0x40
    ensures var h := a * 0x4_0000 + b * 0x1000 + c * 0x40 + d;
            h / 0x4_0000 == a && h / 0x1000 == a * 0x40 + b && h / 0x40 == a * 0x1000 + b * 0x40 + c && h % 0x40 == d
    ensures (a * 0x40 + b) % 0x40 == b && (a * 0x1000 + b * 0x40 + c) % 0x40 == c
  {
  }

  lemma ToDigits64(h: nat) returns (a: nat, b: nat, c: nat, d: nat)
    ensures b < 0x40 && c < 0x40 && d < 0x40 && h == a * 0x4_0000 + b * 0x1000 + c * 0x40 + d
  {
    var q := h / 0x40;
    var p := q / 0x40;
    a, b, c, d := p / 0x40, p % 0x40, q % 0x40, h % 0x40;
  }

  lemma {:induction false} AddUtf8OfDigits(a: nat, b: nat, c: nat, d: nat)
    requires a <= 4 && b < 0x40 && c < 0x40 && d < 0x40
    requires a * 0x4_0000 + b * 0x1000 + c * 0x40 + d < 0x11_0000
    ensures AddUtf8(a * 0x4_0000 + b * 0x1000 + c * 0x40 + d) ==
              if a == 0 && b == 0 && c <= 1 then [c * 0x40 + d]
              else if a == 0 && b == 0 && c < 0x20 then [0xC0 + c, 0x80 + d]
              else if a == 0 && b < 0x10 then [0xE0 + b, 0x80 + c, 0x80 + d]
              else [0xF0 + a, 0x80 + b, 0x80 + c, 0x80 + d]
  {
    Digits64(a, b, c, d);
  }

  /** The reader's bytes are the standard's octet sequence, exactly for what is not a surrogate. */
  lemma AddUtf8IsStandard(h: nat, rest: seq<nat>)
    requires h < 0x11_0000
    ensures First(AddUtf8(h) + rest) == if IsSurrogate(h) then None else Some((h, |AddUtf8(h)|))
  {
    var a, b, c, d := ToDigits64(h);
    AddUtf8OfDigits(a, b, c, d);
    hide AddUtf8;
    var bytes := AddUtf8(h) + rest;
    assert forall i :: 0 <= i < |AddUtf8(h)| ==> bytes[i] == AddUtf8(h)[i];
  }

  /** No other octets stand for the character. */
  lemma StandardIsUnique(bytes: seq<nat>)
    requires First(bytes).Some?
    ensures var (h, n) := First(bytes).value;
            h < 0x11_0000 && !IsSurrogate(h) && 0 < n <= |bytes| && bytes[..n] == AddUtf8(h)
  {
    hide AddUtf8;
    var (_, n) := First(bytes).value;
    if n == 1 {
      AddUtf8OfDigits(0, 0, bytes[0] / 0x40, bytes[0] % 0x40);
    } else if n == 2 {
      AddUtf8OfDigits(0, 0, bytes[0] - 0xC0, bytes[1] - 0x80);
    } else if n == 3 {
      AddUtf8OfDigits(0, bytes[0] - 0xE0, bytes[1] - 0x80, bytes[2] - 0x80);
    } else {
      AddUtf8OfDigits(bytes[0] - 0xF0, bytes[1] - 0x80, bytes[2] - 0x80, bytes[3] - 0x80);
    }
  }

  // ---- strings ----

  /** Characters of the basic plane: what one escape can denote, without surrogates. */
  predicate InBasicPlane(s: string) {
    forall i :: 0 <= i < |s| ==> s[i] as int < 0x1_0000
  }

  function Encoded(s: string): seq<nat>
    requires InBasicPlane(s)
  {
    if s == [] then [] else AddUtf8(s[0] as nat) + Encoded(s[1..])
  }

  function Decoded(bytes: seq<nat>): Option<string>
    decreases |bytes|
  {
    if bytes == [] then Some([])
    else
      var first := First(bytes);
      if first.None? then None
      else
        StandardIsUnique(bytes);
        var (h, n) := first.value;
        var rest := Decoded(bytes[n..]);
        if rest.None? then None else Some([h as char] + rest.value)
  }

  lemma {:induction false} DecodedEncoded(s: string)
    requires InBasicPlane(s)
    ensures Decoded(Encoded(s)) == Some(s)
  {
    hide AddUtf8, First;
    if s != [] {
      var h := s[0] as nat;
      AddUtf8IsStandard(h, Encoded(s[1..]));
      assert Encoded(s)[|AddUtf8(h)|..] == Encoded(s[1..]);
      DecodedEncoded(s[1..]);
      assert [h as char] + s[1..] == s;
    }
  }
}
