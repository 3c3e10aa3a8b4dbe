/** The postcard wire format, as far as stored records use it: varints, length-prefixed
    strings and byte vectors, one-byte option tags, raw fixed arrays. */
module Postcard {
  import opened ByteStrings
  import opened Wrappers

  datatype DecodeError = UnexpectedEnd | BadVarint | BadOption | BadUtf8

  type Parsed<T> = Result<(T, Bytes), DecodeError>

  /** The length of the well-formed UTF-8 sequence at the front, 0 if there is none
      (section 4 of RFC 3629). */
  function CharLength(s: Bytes): (n: nat)
    ensures n <= |s|
  {
    if |s| >= 1 && s[0] < 0x80 then 1
    else if |s| >= 2 && 0xC2 <= s[0] <= 0xDF && Tail(s[1]) then 2
    else if |s| >= 3 && 0xE0 <= s[0] <= 0xEF && Tail(s[1]) && Tail(s[2])
            && (s[0] == 0xE0 ==> s[1] >= 0xA0) && (s[0] == 0xED ==> s[1] <= 0x9F) then 3
    else if |s| >= 4 && 0xF0 <= s[0] <= 0xF4 && Tail(s[1]) && Tail(s[2]) && Tail(s[3])
            && (s[0] == 0xF0 ==> s[1] >= 0x90) && (s[0] == 0xF4 ==> s[1] <= 0x8F) then 4
    else 0
  }

  predicate Tail(b: Byte) {
    0x80 <= b <= 0xBF
  }

  predicate ValidUtf8(s: Bytes)
    decreases |s|
  {
    s == [] || (CharLength(s) > 0 && ValidUtf8(s[CharLength(s)..]))
  }

  lemma {:induction false} Ascii(s: Bytes)
    requires forall i :: 0 <= i < |s| ==> s[i] < 0x80
    ensures ValidUtf8(s)
    decreases |s|
  {
    if s == [] {
    } else {
      Ascii(s[1..]);
    }
  }

  /** Valid texts join to a valid text. */
  lemma {:induction false} Utf8Joins(s: Bytes, t: Bytes)
    requires ValidUtf8(s) && ValidUtf8(t)
    ensures ValidUtf8(s + t)
    decreases |s|
  {
    if s == [] {
      assert s + t == t;
    } else {
      var n := CharLength(s);
      Utf8Joins(s[n..], t);
      FirstCharacter(s, t);
      assert (s + t)[n..] == s[n..] + t;
      OneMoreCharacter(s + t, n);
    }
  }

  lemma OneMoreCharacter(s: Bytes, n: nat)
    requires n > 0 && CharLength(s) == n && ValidUtf8(s[n..])
    ensures ValidUtf8(s)
  {
  }

  lemma FirstCharacter(s: Bytes, t: Bytes)
    requires CharLength(s) > 0
    ensures CharLength(s + t) == CharLength(s)
  {
    var n := CharLength(s);
    assert forall i :: 0 <= i < n ==> (s + t)[i] == s[i];
  }

  /** `Vec<u8>`; lengths are 64-bit. */
  type Blob = b: Bytes | |b| < U64_LIMIT

  /** `String`, as the UTF-8 bytes it is stored in. */
  type Text = b: Bytes | |b| < U64_LIMIT && ValidUtf8(b)

  /** An ASCII string as text; other characters would be cut to seven bits. */
  function AsText(s: string): (t: Text)
    requires |s| < 0x100
    ensures |t| == |s| && (s != [] ==> t[0] == s[0] as int % 128)
  {
    var b: Bytes := seq(|s|, i requires 0 <= i < |s| => s[i] as int % 128);
    Ascii(b);
    b
  }

  function Varint(n: nat): (b: Bytes) {
    if n < 128 then [n] else [128 + n % 128] + Varint(n / 128)
  }

  /** Reads a varint of at most `left` bytes whose last allowed byte may only be 0 or 1;
      ten bytes for a 64-bit number. */
  function TakeVarint(b: Bytes, left: nat): Parsed<nat> {
    if left == 0 then Err(BadVarint)
    else if b == [] then Err(UnexpectedEnd)
    else if b[0] < 128 then
      if left == 1 && b[0] > 1 then Err(BadVarint) else Ok((b[0] as nat, b[1..]))
    else
      var (high, rest) :- TakeVarint(b[1..], left - 1);
      Ok((b[0] - 128 + 128 * high, rest))
  }

  function VarintLimit(left: nat): nat {
    if left == 0 then 0 else if left == 1 then 2 else 128 * VarintLimit(left - 1)
  }

  lemma {:induction false} VarintRoundTrip(n: nat, left: nat, rest: Bytes)
    requires n < VarintLimit(left)
    ensures TakeVarint(Varint(n) + rest, left) == Ok((n, rest))
  {
    if n < 128 {
      assert (Varint(n) + rest)[1..] == rest;
    } else {
      assert Varint(n) + rest == [128 + n % 128] + (Varint(n / 128) + rest);
      VarintRoundTrip(n / 128, left - 1, rest);
    }
  }

  lemma TenBytes()
    ensures VarintLimit(10) == U64_LIMIT
  {
    assert VarintLimit(4) == 2 * 0x20_0000;
    assert VarintLimit(7) == 2 * 0x400_0000_0000;
  }

  lemma U64RoundTrip(n: U64, rest: Bytes)
    ensures TakeVarint(Varint(n) + rest, 10) == Ok((n, rest))
  {
    TenBytes();
    VarintRoundTrip(n, 10, rest);
  }

  /** A varint read in ten bytes is a 64-bit number. */
  lemma {:induction false} TakenBelowLimit(b: Bytes, left: nat)
    ensures TakeVarint(b, left).Ok? ==> TakeVarint(b, left).value.0 < VarintLimit(left)
    ensures TakeVarint(b, left).Ok? ==> |TakeVarint(b, left).value.1| < |b|
  {
    if left > 0 && b != [] && b[0] >= 128 {
      TakenBelowLimit(b[1..], left - 1);
    } else if left >= 2 {
      LimitGrows(left - 1);
    }
  }

  lemma {:induction false} LimitGrows(left: nat)
    requires left >= 1
    ensures VarintLimit(left) >= 2
  {
    if left == 1 {
    } else {
      LimitGrows(left - 1);
    }
  }

  function TakeU64(b: Bytes): Parsed<U64> {
    TenBytes();
    TakenBelowLimit(b, 10);
    var (n, rest) :- TakeVarint(b, 10);
    Ok((n, rest))
  }

  function TakeRaw(b: Bytes, n: nat): Parsed<Bytes> {
    if n <= |b| then Ok((b[..n], b[n..])) else Err(UnexpectedEnd)
  }

  function TakeId(b: Bytes): Parsed<Id16> {
    if 16 <= |b| then Ok((b[..16], b[16..])) else Err(UnexpectedEnd)
  }

  function PutBlob(v: Blob): Bytes {
    Varint(|v|) + v
  }

  function TakeBlob(b: Bytes): Parsed<Blob> {
    var (n, rest) :- TakeU64(b);
    var (v, rest') :- TakeRaw(rest, n);
    Ok((v, rest'))
  }

  function TakeText(b: Bytes): Parsed<Text> {
    var (v, rest) :- TakeBlob(b);
    if ValidUtf8(v) then Ok((v, rest)) else Err(BadUtf8)
  }

  function PutOptionId(v: Option<Id16>): Bytes {
    if v.None? then [0] else [1] + v.value
  }

  function TakeOptionId(b: Bytes): Parsed<Option<Id16>> {
    if b == [] then Err(UnexpectedEnd)
    else if b[0] == 0 then Ok((None, b[1..]))
    else if b[0] == 1 then
      var (v, rest) :- TakeId(b[1..]);
      Ok((Some(v), rest))
    else Err(BadOption)
  }

  lemma IdRoundTrip(v: Id16, rest: Bytes)
    ensures TakeId(v + rest) == Ok((v, rest))
  {
    assert (v + rest)[..16] == v && (v + rest)[16..] == rest;
  }

  lemma BlobRoundTrip(v: Blob, rest: Bytes)
    ensures TakeBlob(PutBlob(v) + rest) == Ok((v, rest))
  {
    assert PutBlob(v) + rest == Varint(|v|) + (v + rest);
    U64RoundTrip(|v|, v + rest);
    assert (v + rest)[..|v|] == v && (v + rest)[|v|..] == rest;
  }

  lemma TextRoundTrip(v: Text, rest: Bytes)
    ensures TakeText(PutBlob(v) + rest) == Ok((v, rest))
  {
    BlobRoundTrip(v, rest);
  }

  lemma OptionIdRoundTrip(v: Option<Id16>, rest: Bytes)
    ensures TakeOptionId(PutOptionId(v) + rest) == Ok((v, rest))
  {
    if v.Some? {
      assert PutOptionId(v) + rest == [1] + (v.value + rest);
      IdRoundTrip(v.value, rest);
    } else {
      assert ([0] + rest)[1..] == rest;
    }
  }
}
