/** UTF-8 (section 3 of RFC 3629): the encoder behind `str.encode("utf-8")`, the strict decoder behind
    `bytes.decode("utf-8")`, and the proof that decoding succeeds on the encodings of texts alone. */
module Utf8 {
  import opened Wrappers

  type Byte = b: int | 0 <= b < 256

  function EncodeChar(c: char): (b: seq<Byte>)
    ensures 1 <= |b| <= 4
  {
    var n := c as int;
    if n < 0x80 then [n]
    else if n < 0x800 then [0xC0 + n / 0x40, 0x80 + n % 0x40]
    else if n < 0x1_0000 then [0xE0 + n / 0x1000, 0x80 + n / 0x40 % 0x40, 0x80 + n % 0x40]
    else [0xF0 + n / 0x4_0000, 0x80 + n / 0x1000 % 0x40, 0x80 + n / 0x40 % 0x40, 0x80 + n % 0x40]
  }

  function Encode(s: string): seq<Byte> {
    if s == "" then [] else EncodeChar(s[0]) + Encode(s[1..])
  }

  predicate IsTail(b: Byte) { 0x80 <= b < 0xC0 }

  /** The six payload bits of a continuation byte. */
  function Payload(b: Byte): int { b as int - 0x80 }

  /** The character at the head of `b`: shortest form only, no surrogates, nothing above U+10FFFF. */
  function DecodeChar(b: seq<Byte>): (r: Option<(char, nat)>)
    ensures r.Some? ==> 1 <= r.value.1 <= |b|
  {
    if b == [] then None
    else
      var lead: int := b[0];
      if lead < 0x80 then Some((lead as char, 1))
      else if 0xC2 <= lead < 0xE0 then
        if |b| >= 2 && IsTail(b[1]) then Some((((lead - 0xC0) * 0x40 + Payload(b[1])) as char, 2)) else None
      else if 0xE0 <= lead < 0xF0 then
        if |b| >= 3 && IsTail(b[1]) && IsTail(b[2]) then
          var n := (lead - 0xE0) * 0x1000 + Payload(b[1]) * 0x40 + Payload(b[2]);
          if n < 0x800 || 0xD800 <= n < 0xE000 then None else Some((n as char, 3))
        else None
      else if 0xF0 <= lead < 0xF5 then
        if |b| >= 4 && IsTail(b[1]) && IsTail(b[2]) && IsTail(b[3]) then
          var n := (lead - 0xF0) * 0x4_0000 + Payload(b[1]) * 0x1000 + Payload(b[2]) * 0x40 + Payload(b[3]);
          if n < 0x1_0000 || n >= 0x11_0000 then None else Some((n as char, 4))
        else None
      else None
  }

  function Decode(b: seq<Byte>): Option<string> {
    if b == [] then Some("")
    else
      match DecodeChar(b)
      case None => None
      case Some((c, k)) =>
        match Decode(b[k..])
        case None => None
        case Some(s) => Some([c] + s)
  }

  lemma Digits(n: int, a: int, b: int, c: int, d: int)
    requires 0 <= b < 0x40 && 0 <= c < 0x40 && 0 <= d < 0x40
    ensures n == a * 0x4_0000 + b * 0x1000 + c * 0x40 + d
            <==> n / 0x4_0000 == a && n / 0x1000 % 0x40 == b && n / 0x40 % 0x40 == c && n % 0x40 == d
  {
    var q, r := n / 0x40, n / 0x1000;
    assert n == q * 0x40 + n % 0x40 && q == r * 0x40 + q % 0x40 && r == n / 0x4_0000 * 0x40 + r % 0x40;
  }

  lemma DecodeCharEncoded(c: char, rest: seq<Byte>)
    ensures DecodeChar(EncodeChar(c) + rest) == Some((c, |EncodeChar(c)|))
  {
    if (c as int) < 0x1_0000 {
      DecodeShort(c, rest);
    } else {
      DecodeLong(c, rest);
    }
  }

  lemma DecodeShort(c: char, rest: seq<Byte>)
    requires (c as int) < 0x1_0000
    ensures DecodeChar(EncodeChar(c) + rest) == Some((c, |EncodeChar(c)|))
  {
    var n := c as int;
    var e := EncodeChar(c);
    assert forall k | 0 <= k < |e| :: (e + rest)[k] == e[k];
    Digits(n, 0, n / 0x1000 % 0x40, n / 0x40 % 0x40, n % 0x40);
  }

  lemma DecodeLong(c: char, rest: seq<Byte>)
    requires (c as int) >= 0x1_0000
    ensures DecodeChar(EncodeChar(c) + rest) == Some((c, |EncodeChar(c)|))
  {
    var n := c as int;
    var e := EncodeChar(c);
    var b := e + rest;
    assert b[0] == e[0] && b[1] == e[1] && b[2] == e[2] && b[3] == e[3];
    Digits(n, n / 0x4_0000, n / 0x1000 % 0x40, n / 0x40 % 0x40, n % 0x40);
  }

  lemma EncodeDecodedChar(b: seq<Byte>)
    requires DecodeChar(b).Some?
    ensures EncodeChar(DecodeChar(b).value.0) == b[..DecodeChar(b).value.1]
  {
    var (c, k) := DecodeChar(b).value;
    var n := c as int;
    if k == 2 {
      Digits(n, 0, 0, b[0] as int - 0xC0, Payload(b[1]));
    } else if k == 3 {
      Digits(n, 0, b[0] as int - 0xE0, Payload(b[1]), Payload(b[2]));
    } else if k == 4 {
      Digits(n, b[0] as int - 0xF0, Payload(b[1]), Payload(b[2]), Payload(b[3]));
    }
  }

  lemma {:induction false} EncodeConcat(s: string, t: string)
    ensures Encode(s + t) == Encode(s) + Encode(t)
  {
    if s == "" {
      assert s + t == t;
    } else {
      EncodeConcat(s[1..], t);
      assert (s + t)[1..] == s[1..] + t && (s + t)[0] == s[0];
      var e := EncodeChar(s[0]);
      assert e + (Encode(s[1..]) + Encode(t)) == (e + Encode(s[1..])) + Encode(t);
    }
  }

  lemma {:induction false} DecodeEncode(s: string)
    ensures Decode(Encode(s)) == Some(s)
  {
    if s != "" {
      var e, rest := EncodeChar(s[0]), Encode(s[1..]);
      DecodeCharEncoded(s[0], rest);
      DecodeEncode(s[1..]);
      assert Encode(s) == e + rest && (e + rest)[|e|..] == rest;
      assert [s[0]] + s[1..] == s;
    }
  }

  /** The decoder accepts exactly the encoder's output: no second byte form of any text. */
  lemma {:induction false} DecodeIffEncoded(b: seq<Byte>, s: string)
    ensures Decode(b) == Some(s) <==> b == Encode(s)
  {
    if b == Encode(s) {
      DecodeEncode(s);
    }
    if Decode(b) == Some(s) && b != [] {
      var (c, k) := DecodeChar(b).value;
      EncodeDecodedChar(b);
      DecodeIffEncoded(b[k..], s[1..]);
      assert b == b[..k] + b[k..];
    }
  }
}
