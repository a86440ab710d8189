/** UTF-8 as in section 3 of RFC 3629, over Unicode scalar values. */
module Utf8 {
  import opened Prelude

  type byte = x: int | 0 <= x < 256
  type Bytes = seq<byte>

  function EncodeChar(c: char): (r: Bytes)
    ensures 1 <= |r| <= 4 && (c as int < 128 <==> |r| == 1)
  {
    var n := c as int;
    if n < 0x80 then [n]
    else if n < 0x800 then [0xC0 + n / 0x40, 0x80 + n % 0x40]
    else if n < 0x1_0000 then [0xE0 + n / 0x1000, 0x80 + n / 0x40 % 0x40, 0x80 + n % 0x40]
    else [0xF0 + n / 0x4_0000, 0x80 + n / 0x1000 % 0x40, 0x80 + n / 0x40 % 0x40, 0x80 + n % 0x40]
  }

  function Encode(s: string): Bytes {
    if s == "" then [] else EncodeChar(s[0]) + Encode(s[1..])
  }

  predicate IsTail(b: byte) {
    0x80 <= b < 0xC0
  }

  /** The number of bytes that a first byte announces. */
  function Announced(b: byte): nat {
    if b < 0x80 then 1 else if 0xC0 <= b < 0xE0 then 2 else if 0xE0 <= b < 0xF0 then 3 else if 0xF0 <= b < 0xF8 then 4 else 0
  }

  /** The number that well-shaped bytes spell, however long they make it. */
  function Spelled(b: Bytes, n: nat): int
    requires 1 <= n <= 4 && n <= |b|
  {
    if n == 1 then b[0]
    else if n == 2 then (b[0] as int - 0xC0) * 0x40 + (b[1] as int - 0x80)
    else if n == 3 then (b[0] as int - 0xE0) * 0x1000 + (b[1] as int - 0x80) * 0x40 + (b[2] as int - 0x80)
    else (b[0] as int - 0xF0) * 0x4_0000 + (b[1] as int - 0x80) * 0x1000 + (b[2] as int - 0x80) * 0x40 + (b[3] as int - 0x80)
  }

  /** A scalar value: not a surrogate, and not past the last plane. */
  predicate IsScalar(n: int) {
    0 <= n < 0xD800 || 0xE000 <= n < 0x11_0000
  }

  /** The least value that needs so many bytes. */
  function Least(n: nat): int {
    if n <= 1 then 0 else if n == 2 then 0x80 else if n == 3 then 0x800 else 0x1_0000
  }

  predicate Starts(b: Bytes, n: nat) {
    && 1 <= n <= 4 && n <= |b| && Announced(b[0]) == n
    && forall i :: 1 <= i < n ==> IsTail(b[i])
  }

  /** The first character, if the bytes start with a shortest encoding of a scalar value. */
  function DecodeChar(b: Bytes): (r: Option<(char, nat)>)
    requires b != []
    ensures r.Some? ==> 1 <= r.value.1 <= |b|
  {
    var n := Announced(b[0]);
    if Starts(b, n) && IsScalar(Spelled(b, n)) && Spelled(b, n) >= Least(n) then Some((Spelled(b, n) as char, n)) else None
  }

  /** Strict decoding. */
  function Decode(b: Bytes): Option<string>
    decreases |b|
  {
    if b == [] then Some("")
    else match DecodeChar(b)
      case None => None
      case Some((c, n)) =>
        match Decode(b[n..])
        case None => None
        case Some(rest) => Some([c] + rest)
  }

  lemma SpelledBack(c: char)
    ensures var b := EncodeChar(c); Starts(b, |b|) && Spelled(b, |b|) == c as int && c as int >= Least(|b|)
  {
    var n := c as int;
    assert IsScalar(n);
    Digits(n);
  }

  /** A number in base 64. */
  lemma Digits(n: int)
    requires 0 <= n
    ensures n == n / 0x40 * 0x40 + n % 0x40
    ensures n == n / 0x1000 * 0x1000 + n / 0x40 % 0x40 * 0x40 + n % 0x40
    ensures n == n / 0x4_0000 * 0x4_0000 + n / 0x1000 % 0x40 * 0x1000 + n / 0x40 % 0x40 * 0x40 + n % 0x40
  {
    assert n / 0x40 / 0x40 == n / 0x1000;
    assert n / 0x1000 / 0x40 == n / 0x4_0000;
  }

  lemma DecodeCharOf(c: char, rest: Bytes)
    ensures DecodeChar(EncodeChar(c) + rest) == Some((c, |EncodeChar(c)|))
  {
    SpelledBack(c);
    var b := EncodeChar(c) + rest;
    var n := |EncodeChar(c)|;
    assert Spelled(b, n) == Spelled(EncodeChar(c), n);
    assert IsScalar(c as int);
  }

  /** Decoding undoes encoding. */
  lemma {:induction false} DecodeOf(s: string)
    ensures Decode(Encode(s)) == Some(s)
    decreases |s|
  {
    if s != "" {
      DecodeCharOf(s[0], Encode(s[1..]));
      var b := Encode(s);
      assert b[|EncodeChar(s[0])|..] == Encode(s[1..]);
      DecodeOf(s[1..]);
      assert s == [s[0]] + s[1..];
    }
  }

  lemma Encode2(b: Bytes)
    requires |b| >= 2 && Starts(b, 2) && 0x80 <= Spelled(b, 2)
    ensures EncodeChar(Spelled(b, 2) as char) == b[..2]
  {
    var v := Spelled(b, 2);
    assert v < 0x800 && v / 0x40 == b[0] as int - 0xC0 && v % 0x40 == b[1] as int - 0x80;
  }

  lemma Encode3(b: Bytes)
    requires |b| >= 3 && Starts(b, 3) && 0x800 <= Spelled(b, 3) && IsScalar(Spelled(b, 3))
    ensures EncodeChar(Spelled(b, 3) as char) == b[..3]
  {
    var v := Spelled(b, 3);
    var high := (b[0] as int - 0xE0) * 0x40 + (b[1] as int - 0x80);
    assert v < 0x1_0000 && v / 0x40 == high && v % 0x40 == b[2] as int - 0x80;
    assert v / 0x1000 == high / 0x40 == b[0] as int - 0xE0 && high % 0x40 == b[1] as int - 0x80;
  }

  lemma Encode4(b: Bytes)
    requires |b| >= 4 && Starts(b, 4) && 0x1_0000 <= Spelled(b, 4) && IsScalar(Spelled(b, 4))
    ensures EncodeChar(Spelled(b, 4) as char) == b[..4]
  {
    var v := Spelled(b, 4);
    var top := (b[0] as int - 0xF0) * 0x40 + (b[1] as int - 0x80);
    var high := top * 0x40 + (b[2] as int - 0x80);
    assert v / 0x40 == high && v % 0x40 == b[3] as int - 0x80;
    assert v / 0x1000 == high / 0x40 == top && high % 0x40 == b[2] as int - 0x80;
    assert v / 0x4_0000 == top / 0x40 == b[0] as int - 0xF0 && top % 0x40 == b[1] as int - 0x80;
  }

  lemma EncodeCharOf(b: Bytes)
    requires b != [] && DecodeChar(b).Some?
    ensures EncodeChar(DecodeChar(b).value.0) == b[..DecodeChar(b).value.1]
  {
    var n := Announced(b[0]);
    if n == 2 {
      Encode2(b);
    } else if n == 3 {
      Encode3(b);
    } else if n == 4 {
      Encode4(b);
    }
  }

  lemma DecodeSplits(b: Bytes) returns (c: char, n: nat)
    requires b != [] && Decode(b).Some?
    ensures 1 <= n <= |b| && EncodeChar(c) == b[..n]
    ensures Decode(b[n..]).Some? && Decode(b).value == [c] + Decode(b[n..]).value
  {
    c, n := DecodeChar(b).value.0, DecodeChar(b).value.1;
    EncodeCharOf(b);
  }

  lemma EncodeCons(c: char, rest: string)
    ensures Encode([c] + rest) == EncodeChar(c) + Encode(rest)
  {
    assert ([c] + rest)[1..] == rest;
  }

  /** Only an encoding is decoded: no overlong form, no surrogate, nothing left over. */
  lemma {:induction false} EncodeOf(b: Bytes)
    requires Decode(b).Some?
    ensures Encode(Decode(b).value) == b
    decreases |b|
  {
    if b != [] {
      var c, n := DecodeSplits(b);
      var rest := b[n..];
      EncodeOf(rest);
      EncodeCons(c, Decode(rest).value);
      assert b == b[..n] + rest;
    }
  }
}
