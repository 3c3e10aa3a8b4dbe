/** What well-formed UTF-8 is (section 3 of RFC 3629): the texts that encode Unicode scalar values. */
module Utf8Forms {
  import opened ByteStrings
  import opened Postcard

  /** Up to U+10FFFF, without the surrogates. */
  ghost predicate Scalar(c: nat) {
    c < 0xD800 || 0xE000 <= c < 0x11_0000
  }

  ghost function Utf8(c: nat): Bytes
    requires Scalar(c)
  {
    if c < 0x80 then [c]
    else if c < 0x800 then [0xC0 + c / 64, 0x80 + c % 64]
    else if c < 0x1_0000 then [0xE0 + c / 64 / 64, 0x80 + c / 64 % 64, 0x80 + c % 64]
    else [0xF0 + c / 64 / 64 / 64, 0x80 + c / 64 / 64 % 64, 0x80 + c / 64 % 64, 0x80 + c % 64]
  }

  ghost function Utf8All(cs: seq<nat>): Bytes
    requires forall i :: 0 <= i < |cs| ==> Scalar(cs[i])
  {
    if cs == [] then [] else Utf8(cs[0]) + Utf8All(cs[1..])
  }

  ghost predicate Encodes(s: Bytes, cs: seq<nat>) {
    (forall i :: 0 <= i < |cs| ==> Scalar(cs[i])) && s == Utf8All(cs)
  }

  /** Every character is taken with its own length. */
  lemma CharacterTaken(c: nat, rest: Bytes)
    requires Scalar(c)
    ensures CharLength(Utf8(c) + rest) == |Utf8(c)| && (Utf8(c) + rest)[|Utf8(c)|..] == rest
  {
    var s := Utf8(c) + rest;
    assert forall i :: 0 <= i < |Utf8(c)| ==> s[i] == Utf8(c)[i];
    if c < 0x80 {
    } else if c < 0x800 {
      assert 2 <= c / 64 < 32;
    } else if c < 0x1_0000 {
      ThreeBytes(c);
    } else {
      FourBytes(c);
    }
  }

  lemma ThreeBytes(c: nat)
    requires 0x800 <= c < 0x1_0000 && Scalar(c)
    ensures var x, y := c / 64 / 64, c / 64 % 64; x < 16 && (x == 0 ==> y >= 0x20) && (x == 0xD ==> y < 0x20)
  {
  }

  lemma FourBytes(c: nat)
    requires 0x1_0000 <= c < 0x11_0000
    ensures var x, y := c / 64 / 64 / 64, c / 64 / 64 % 64; x <= 4 && (x == 0 ==> y >= 0x10) && (x == 4 ==> y < 0x10)
  {
  }

  /** And nothing else is taken for a character. */
  lemma OnlyCharacters(s: Bytes) returns (c: nat)
    requires CharLength(s) > 0
    ensures Scalar(c) && Utf8(c) == s[..CharLength(s)]
  {
    var n := CharLength(s);
    if n == 1 {
      c := s[0];
    } else if n == 2 {
      var w: int, x: int := s[0], s[1];
      c := (w - 0xC0) * 64 + (x - 0x80);
      assert c / 64 == w - 0xC0 && c % 64 == x - 0x80;
    } else if n == 3 {
      var w: int, x: int, y: int := s[0], s[1], s[2];
      var d := (w - 0xE0) * 64 + (x - 0x80);
      c := d * 64 + (y - 0x80);
      assert d / 64 == w - 0xE0 && d % 64 == x - 0x80;
      assert c / 64 == d && c % 64 == y - 0x80;
    } else {
      var w: int, x: int, y: int, z: int := s[0], s[1], s[2], s[3];
      var e := (w - 0xF0) * 64 + (x - 0x80);
      var d := e * 64 + (y - 0x80);
      c := d * 64 + (z - 0x80);
      assert e / 64 == w - 0xF0 && e % 64 == x - 0x80;
      assert d / 64 == e && d % 64 == y - 0x80;
      assert c / 64 == d && c % 64 == z - 0x80;
    }
  }

  lemma {:induction false} EncodedIsValid(s: Bytes, cs: seq<nat>)
    requires Encodes(s, cs)
    ensures ValidUtf8(s)
    decreases |cs|
  {
    if cs == [] {
    } else {
      var rest := Utf8All(cs[1..]);
      EncodedIsValid(rest, cs[1..]);
      CharacterTaken(cs[0], rest);
      OneMoreCharacter(s, |Utf8(cs[0])|);
    }
  }

  lemma {:induction false} ValidIsEncoded(s: Bytes) returns (cs: seq<nat>)
    requires ValidUtf8(s)
    ensures Encodes(s, cs)
    decreases |s|
  {
    if s == [] {
      cs := [];
    } else {
      var n := CharLength(s);
      var c := OnlyCharacters(s);
      var more := ValidIsEncoded(s[n..]);
      cs := [c] + more;
      assert cs[1..] == more && s == s[..n] + s[n..];
    }
  }

  /** Valid are exactly the byte strings that encode some scalar values one after the other. */
  lemma ValidIff(s: Bytes)
    ensures ValidUtf8(s) <==> exists cs :: Encodes(s, cs)
  {
    if ValidUtf8(s) {
      var cs := ValidIsEncoded(s);
    }
    if cs :| Encodes(s, cs) {
      EncodedIsValid(s, cs);
    }
  }
}
