/** CBOR data items (section 3 of RFC 8949): writing with the shortest heads (section 4.1) and
    definite lengths, reading with any heads and lengths. */
module Cbor {
  import opened ByteStrings
  import opened Wrappers
  import opened Postcard

  datatype Value =
    | Integer(n: int)
    | ByteString(bytes: Blob)
    | TextString(text: Text)
    | Array(items: seq<Value>)
    | Map(entries: seq<Entry>)
    | Tag(tag: U64, item: Value)
    | Float(bits: FloatBits)
    | Bool(b: bool)
    | Null

  /** A half, single or double precision float, as its bytes. */
  type FloatBits = b: Bytes | |b| == 2 || |b| == 4 || |b| == 8 witness [0, 0]

  datatype Entry = Entry(key: Value, value: Value)

  datatype CborError = Truncated | Unsupported | InvalidUtf8

  type Read<T> = Result<(T, Bytes), CborError>

  /** Byte strings under tags 2 and 3 are bignums (section 3.4.3 of RFC 8949); one that fits in 64
      bits is the integer it stands for. */
  function Tagged(tag: U64, item: Value): Value {
    if !item.ByteString? || BeNat(item.bytes) >= U64_LIMIT then Tag(tag, item)
    else if tag == 2 then Integer(BeNat(item.bytes))
    else if tag == 3 then Integer(-1 - BeNat(item.bytes))
    else Tag(tag, item)
  }

  /** Values a writer can hold: 65-bit integers, which need no bignum, and 64-bit counts. */
  predicate Encodable(v: Value) {
    match v
    case Integer(n) => 0 <= n + U64_LIMIT && n < U64_LIMIT
    case ByteString(_) => true
    case TextString(_) => true
    case Array(items) => |items| < U64_LIMIT && forall i :: 0 <= i < |items| ==> Encodable(items[i])
    case Map(entries) => |entries| < U64_LIMIT && forall i :: 0 <= i < |entries| ==> Encodable(entries[i].key) && Encodable(entries[i].value)
    case Tag(tag, item) => Encodable(item) && Tagged(tag, item) == v
    case Float(_) => true
    case Bool(_) => true
    case Null => true
  }

  type Major = m: nat | m < 8

  /** The width of the argument after a head byte, by its low five bits. */
  function Width(info: nat): nat
    requires 24 <= info <= 27
  {
    if info == 24 then 1 else if info == 25 then 2 else if info == 26 then 4 else 8
  }

  /** The shortest way to write an argument that does not fit in the head byte. */
  function Info(n: U64): (info: nat)
    ensures 24 <= info <= 27
  {
    if n < 0x100 then 24 else if n < 0x1_0000 then 25 else if n < U32_LIMIT then 26 else 27
  }

  function PutHead(major: Major, n: U64): Bytes {
    if n < 24 then [32 * major + n] else [32 * major + Info(n)] + ToBe(n, Width(Info(n)))
  }

  function TakeHead(b: Bytes): (r: Read<(Major, U64)>)
    ensures r.Ok? ==> |r.value.1| < |b|
  {
    if b == [] then Err(Truncated)
    else
      var major, info := b[0] / 32, b[0] % 32;
      if info < 24 then Ok(((major, info), b[1..]))
      else if info > 27 then Err(Unsupported)
      else if 1 + Width(info) > |b| then Err(Truncated)
      else
        ArgumentFits(b[1..1 + Width(info)], info);
        Ok(((major, BeNat(b[1..1 + Width(info)])), b[1 + Width(info)..]))
  }

  lemma ArgumentFits(b: Bytes, info: nat)
    requires 24 <= info <= 27 && |b| == Width(info)
    ensures BeNat(b) < U64_LIMIT
  {
    Widths();
    BeNatBound(b);
  }

  function PutValue(v: Value): Bytes
    requires Encodable(v)
    decreases v
  {
    match v
    case Integer(n) => if n >= 0 then PutHead(0, n) else PutHead(1, -1 - n)
    case ByteString(b) => PutHead(2, |b|) + b
    case TextString(t) => PutHead(3, |t|) + t
    case Array(items) => PutHead(4, |items|) + PutItems(items)
    case Map(entries) => PutHead(5, |entries|) + PutEntries(entries)
    case Tag(tag, item) => PutHead(6, tag) + PutValue(item)
    case Float(bits) => [if |bits| == 2 then 0xf9 else if |bits| == 4 then 0xfa else 0xfb] + bits
    case Bool(b) => if b then [0xf5] else [0xf4]
    case Null => [0xf6]
  }

  function PutItems(items: seq<Value>): Bytes
    requires forall i :: 0 <= i < |items| ==> Encodable(items[i])
    decreases items
  {
    if items == [] then [] else PutValue(items[0]) + PutItems(items[1..])
  }

  function PutEntries(entries: seq<Entry>): Bytes
    requires forall i :: 0 <= i < |entries| ==> Encodable(entries[i].key) && Encodable(entries[i].value)
    decreases entries
  {
    if entries == [] then [] else PutEntry(entries[0]) + PutEntries(entries[1..])
  }

  function PutEntry(e: Entry): Bytes
    requires Encodable(e.key) && Encodable(e.value)
    decreases e
  {
    PutValue(e.key) + PutValue(e.value)
  }

  function TakeSlice(b: Bytes, n: U64): Read<Blob> {
    if n <= |b| then Ok((b[..n], b[n..])) else Err(Truncated)
  }

  const BREAK: Byte := 0xff

  /** A data item; 0xf7 (undefined) reads as null. */
  function TakeValue(b: Bytes): (r: Read<Value>)
    ensures r.Ok? ==> |r.value.1| < |b|
    decreases |b|, 0
  {
    if b == [] then Err(Truncated)
    else if b[0] / 32 == 7 then TakeSimple(b)
    else if b[0] % 32 == 31 then TakeOpen(b[0] / 32, b[1..])
    else
      var ((major, n), rest) :- TakeHead(b);
      TakeBody(major, n, rest)
  }

  /** An item of definite length, after its head. */
  function TakeBody(major: Major, n: U64, b: Bytes): (r: Read<Value>)
    ensures r.Ok? ==> |r.value.1| <= |b|
    decreases |b|, 2
  {
    match major
    case 0 => Ok((Integer(n), b))
    case 1 => Ok((Integer(-1 - n), b))
    case 2 =>
      var (s, rest) :- TakeSlice(b, n);
      Ok((ByteString(s), rest))
    case 3 =>
      var (s, rest) :- TakeSlice(b, n);
      if ValidUtf8(s) then Ok((TextString(s), rest)) else Err(InvalidUtf8)
    case 4 =>
      var (items, rest) :- TakeItems(n, b);
      Ok((Array(items), rest))
    case 5 =>
      var (entries, rest) :- TakeEntries(n, b);
      Ok((Map(entries), rest))
    case 6 =>
      var (item, rest) :- TakeValue(b);
      Ok((Tagged(n, item), rest))
    case 7 => Err(Unsupported)
  }

  function TakeSimple(b: Bytes): (r: Read<Value>)
    requires b != []
    ensures r.Ok? ==> |r.value.1| < |b|
  {
    if b[0] == 0xf4 then Ok((Bool(false), b[1..]))
    else if b[0] == 0xf5 then Ok((Bool(true), b[1..]))
    else if b[0] == 0xf6 || b[0] == 0xf7 then Ok((Null, b[1..]))
    else if b[0] == 0xf9 then TakeFloat(b, 2)
    else if b[0] == 0xfa then TakeFloat(b, 4)
    else if b[0] == 0xfb then TakeFloat(b, 8)
    else Err(Unsupported)
  }

  function TakeFloat(b: Bytes, width: nat): (r: Read<Value>)
    requires width == 2 || width == 4 || width == 8
    ensures r.Ok? ==> |r.value.1| < |b|
  {
    if |b| > width then Ok((Float(b[1..1 + width]), b[1 + width..])) else Err(Truncated)
  }

  /** An item of indefinite length, after its head. */
  function TakeOpen(major: Major, b: Bytes): (r: Read<Value>)
    ensures r.Ok? ==> |r.value.1| <= |b|
    decreases |b|, 2
  {
    match major
    case 2 =>
      var (s, rest) :- TakeChunks(2, b);
      Ok((ByteString(s), rest))
    case 3 =>
      var (s, rest) :- TakeChunks(3, b);
      Ok((TextString(s), rest))
    case 4 =>
      var (items, rest) :- TakeOpenItems(b);
      Ok((Array(items), rest))
    case 5 =>
      var (entries, rest) :- TakeOpenEntries(b);
      Ok((Map(entries), rest))
    case _ => Err(Unsupported)
  }

  /** Definite strings of one kind up to the break, joined. Each chunk of a text is a text of its
      own: no character may be cut between chunks (section 3.2.3 of RFC 8949). */
  function TakeChunks(major: Major, b: Bytes): (r: Read<Blob>)
    ensures r.Ok? ==> |r.value.1| <= |b|
    ensures r.Ok? && major == 3 ==> ValidUtf8(r.value.0)
    decreases |b|
  {
    if b == [] then Err(Truncated)
    else if b[0] == BREAK then Ok(([], b[1..]))
    else
      var ((kind, n), rest) :- TakeHead(b);
      if kind != major then Err(Unsupported)
      else
        var (s, rest') :- TakeSlice(rest, n);
        if major == 3 && !ValidUtf8(s) then Err(InvalidUtf8)
        else
          var (more, rest'') :- TakeChunks(major, rest');
          if |s| + |more| >= U64_LIMIT then Err(Unsupported)
          else
            ChunksJoin(major, s, more);
            Ok((s + more, rest''))
  }

  lemma ChunksJoin(major: Major, s: Bytes, more: Bytes)
    requires major == 3 ==> ValidUtf8(s) && ValidUtf8(more)
    ensures major == 3 ==> ValidUtf8(s + more)
  {
    if major == 3 {
      Utf8Joins(s, more);
    }
  }

  function TakeOpenItems(b: Bytes): (r: Read<seq<Value>>)
    ensures r.Ok? ==> |r.value.1| <= |b|
    decreases |b|, 1
  {
    if b == [] then Err(Truncated)
    else if b[0] == BREAK then Ok(([], b[1..]))
    else
      var (v, rest) :- TakeValue(b);
      var (items, rest') :- TakeOpenItems(rest);
      Ok(([v] + items, rest'))
  }

  function TakeOpenEntries(b: Bytes): (r: Read<seq<Entry>>)
    ensures r.Ok? ==> |r.value.1| <= |b|
    decreases |b|, 1
  {
    if b == [] then Err(Truncated)
    else if b[0] == BREAK then Ok(([], b[1..]))
    else
      var (k, rest) :- TakeValue(b);
      var (v, rest') :- TakeValue(rest);
      var (entries, rest'') :- TakeOpenEntries(rest');
      Ok(([Entry(k, v)] + entries, rest''))
  }

  function TakeItems(n: nat, b: Bytes): (r: Read<seq<Value>>)
    ensures r.Ok? ==> |r.value.1| <= |b|
    decreases |b|, 1
  {
    if n == 0 then Ok(([], b))
    else
      var (v, rest) :- TakeValue(b);
      var (items, rest') :- TakeItems(n - 1, rest);
      Ok(([v] + items, rest'))
  }

  function TakeEntries(n: nat, b: Bytes): (r: Read<seq<Entry>>)
    ensures r.Ok? ==> |r.value.1| <= |b|
    decreases |b|, 1
  {
    if n == 0 then Ok(([], b))
    else
      var (k, rest) :- TakeValue(b);
      var (v, rest') :- TakeValue(rest);
      var (entries, rest'') :- TakeEntries(n - 1, rest');
      Ok(([Entry(k, v)] + entries, rest''))
  }

  lemma InfoFits(n: U64)
    ensures n < Pow256(Width(Info(n)))
  {
    Widths();
  }

  lemma WideHead(major: Major, info: nat, n: nat, rest: Bytes)
    requires 24 <= info <= 27 && n < Pow256(Width(info))
    ensures TakeHead([32 * major + info] + ToBe(n, Width(info)) + rest) == Ok(((major, n), rest))
  {
    var width := Width(info);
    var b := [32 * major + info] + ToBe(n, width) + rest;
    assert b[0] / 32 == major && b[0] % 32 == info;
    assert b[1..1 + width] == ToBe(n, width) && b[1 + width..] == rest;
    BeRoundTrip(n, width);
  }

  lemma HeadRoundTrip(major: Major, n: U64, rest: Bytes)
    ensures TakeHead(PutHead(major, n) + rest) == Ok(((major, n), rest))
  {
    if n < 24 {
      var b := [32 * major + n] + rest;
      assert b[1..] == rest && b[0] / 32 == major && b[0] % 32 == n;
    } else {
      InfoFits(n);
      WideHead(major, Info(n), n, rest);
    }
  }

  /** Reading an item that starts with a head of definite length goes by the head. */
  lemma DefiniteItem(major: Major, n: U64, b: Bytes)
    requires major < 7
    ensures TakeValue(PutHead(major, n) + b) == TakeBody(major, n, b)
  {
    var all := PutHead(major, n) + b;
    assert all != [] && all[0] % 32 != 31 && all[0] / 32 == major;
    HeadRoundTrip(major, n, b);
  }

  lemma IntegerRoundTrip(n: int, rest: Bytes)
    requires Encodable(Integer(n))
    ensures TakeValue(PutValue(Integer(n)) + rest) == Ok((Integer(n), rest))
  {
    var major, m := if n >= 0 then 0 else 1, if n >= 0 then n else -1 - n;
    DefiniteItem(major, m, rest);
  }

  lemma AppendAssociates(a: Bytes, b: Bytes, c: Bytes)
    ensures a + b + c == a + (b + c)
  {
  }

  lemma SliceRoundTrip(s: Blob, rest: Bytes)
    ensures TakeSlice(s + rest, |s|) == Ok((s, rest))
  {
    assert (s + rest)[..|s|] == s && (s + rest)[|s|..] == rest;
  }

  lemma BytesRoundTrip(s: Blob, rest: Bytes)
    ensures TakeValue(PutValue(ByteString(s)) + rest) == Ok((ByteString(s), rest))
  {
    AppendAssociates(PutHead(2, |s|), s, rest);
    DefiniteItem(2, |s|, s + rest);
    SliceRoundTrip(s, rest);
  }

  lemma TextRoundTrip(s: Text, rest: Bytes)
    ensures TakeValue(PutValue(TextString(s)) + rest) == Ok((TextString(s), rest))
  {
    AppendAssociates(PutHead(3, |s|), s, rest);
    DefiniteItem(3, |s|, s + rest);
    SliceRoundTrip(s, rest);
  }

  lemma ArrayStep(n: U64, b: Bytes, items: seq<Value>, rest: Bytes)
    requires TakeItems(n, b) == Ok((items, rest))
    ensures TakeValue(PutHead(4, n) + b) == Ok((Array(items), rest))
  {
    DefiniteItem(4, n, b);
  }

  lemma MapStep(n: U64, b: Bytes, entries: seq<Entry>, rest: Bytes)
    requires TakeEntries(n, b) == Ok((entries, rest))
    ensures TakeValue(PutHead(5, n) + b) == Ok((Map(entries), rest))
  {
    DefiniteItem(5, n, b);
  }

  lemma TagStep(n: U64, b: Bytes, item: Value, rest: Bytes, v: Value)
    requires TakeValue(b) == Ok((item, rest)) && v == Tagged(n, item)
    ensures TakeValue(PutHead(6, n) + b) == Ok((v, rest))
  {
    DefiniteItem(6, n, b);
  }

  /** An integer may come as a bignum of any width, leading zeros included. */
  lemma BignumReads(tag: U64, b: Blob, rest: Bytes)
    requires (tag == 2 || tag == 3) && BeNat(b) < U64_LIMIT
    ensures TakeValue(PutHead(6, tag) + (PutValue(ByteString(b)) + rest)) == Ok((Integer(if tag == 2 then BeNat(b) else -1 - BeNat(b)), rest))
  {
    BytesRoundTrip(b, rest);
    TagStep(tag, PutValue(ByteString(b)) + rest, ByteString(b), rest, Tagged(tag, ByteString(b)));
  }

  lemma FloatRoundTrip(bits: FloatBits, rest: Bytes)
    ensures TakeValue(PutValue(Float(bits)) + rest) == Ok((Float(bits), rest))
  {
    var b := PutValue(Float(bits)) + rest;
    var n := |bits|;
    assert b[1..1 + n] == bits && b[1 + n..] == rest;
    assert TakeFloat(b, n) == Ok((Float(bits), rest));
    assert b[0] / 32 == 7;
  }

  lemma SimpleRoundTrip(v: Value, rest: Bytes)
    requires v.Bool? || v.Null?
    ensures TakeValue(PutValue(v) + rest) == Ok((v, rest))
  {
    var b := PutValue(v) + rest;
    assert b[1..] == rest && b[0] / 32 == 7;
  }

  /** Reading gets back any value written, whatever follows it. */
  lemma {:induction false} TakeInvertsPut(v: Value, rest: Bytes)
    requires Encodable(v)
    ensures TakeValue(PutValue(v) + rest) == Ok((v, rest))
    decreases v, 1
  {
    match v
    case Integer(n) => IntegerRoundTrip(n, rest);
    case ByteString(b) => BytesRoundTrip(b, rest);
    case TextString(t) => TextRoundTrip(t, rest);
    case Array(items) => ArrayRoundTrip(items, rest);
    case Map(entries) => MapRoundTrip(entries, rest);
    case Tag(tag, item) => TagRoundTrip(tag, item, rest);
    case Float(bits) => FloatRoundTrip(bits, rest);
    case Bool(_) => SimpleRoundTrip(v, rest);
    case Null => SimpleRoundTrip(v, rest);
  }

  lemma {:induction false} ArrayRoundTrip(items: seq<Value>, rest: Bytes)
    requires Encodable(Array(items))
    ensures TakeValue(PutValue(Array(items)) + rest) == Ok((Array(items), rest))
    decreases items, 1
  {
    ItemsRoundTrip(items, rest);
    AppendAssociates(PutHead(4, |items|), PutItems(items), rest);
    ArrayStep(|items|, PutItems(items) + rest, items, rest);
  }

  lemma {:induction false} MapRoundTrip(entries: seq<Entry>, rest: Bytes)
    requires Encodable(Map(entries))
    ensures TakeValue(PutValue(Map(entries)) + rest) == Ok((Map(entries), rest))
    decreases entries, 1
  {
    EntriesRoundTrip(entries, rest);
    AppendAssociates(PutHead(5, |entries|), PutEntries(entries), rest);
    MapStep(|entries|, PutEntries(entries) + rest, entries, rest);
  }

  lemma {:induction false} TagRoundTrip(tag: U64, item: Value, rest: Bytes)
    requires Encodable(Tag(tag, item))
    ensures TakeValue(PutValue(Tag(tag, item)) + rest) == Ok((Tag(tag, item), rest))
    decreases item, 2
  {
    TakeInvertsPut(item, rest);
    AppendAssociates(PutHead(6, tag), PutValue(item), rest);
    TagStep(tag, PutValue(item) + rest, item, rest, Tag(tag, item));
  }

  lemma TakeItemsStep(n: nat, b: Bytes, v: Value, rest: Bytes)
    requires n > 0 && TakeValue(b) == Ok((v, rest)) && TakeItems(n - 1, rest).Ok?
    ensures TakeItems(n, b) == Ok(([v] + TakeItems(n - 1, rest).value.0, TakeItems(n - 1, rest).value.1))
  {
  }

  lemma TakeEntriesStep(n: nat, b: Bytes, k: Value, rest: Bytes, v: Value, rest': Bytes)
    requires n > 0 && TakeValue(b) == Ok((k, rest)) && TakeValue(rest) == Ok((v, rest')) && TakeEntries(n - 1, rest').Ok?
    ensures TakeEntries(n, b) == Ok(([Entry(k, v)] + TakeEntries(n - 1, rest').value.0, TakeEntries(n - 1, rest').value.1))
  {
  }

  lemma HeadAndTail<T>(s: seq<T>)
    requires s != []
    ensures s == [s[0]] + s[1..]
  {
  }

  lemma ItemsUnfold(items: seq<Value>)
    requires items != [] && forall i :: 0 <= i < |items| ==> Encodable(items[i])
    ensures PutItems(items) == PutValue(items[0]) + PutItems(items[1..])
  {
  }

  lemma ConsItems(items: seq<Value>, rest: Bytes)
    requires items != [] && forall i :: 0 <= i < |items| ==> Encodable(items[i])
    ensures PutItems(items) + rest == PutValue(items[0]) + (PutItems(items[1..]) + rest)
  {
    ItemsUnfold(items);
    AppendAssociates(PutValue(items[0]), PutItems(items[1..]), rest);
  }

  lemma {:induction false} ItemsRoundTrip(items: seq<Value>, rest: Bytes)
    requires forall i :: 0 <= i < |items| ==> Encodable(items[i])
    ensures TakeItems(|items|, PutItems(items) + rest) == Ok((items, rest))
    decreases items, 0
  {
    if items == [] {
      assert PutItems(items) + rest == rest;
    } else {
      var more := PutItems(items[1..]) + rest;
      HeadAndTail(items);
      ConsItems(items, rest);
      TakeInvertsPut(items[0], more);
      ItemsRoundTrip(items[1..], rest);
      TakeItemsStep(|items|, PutItems(items) + rest, items[0], more);
    }
  }

  lemma {:induction false} EntryRoundTrip(e: Entry, rest: Bytes)
    requires Encodable(e.key) && Encodable(e.value)
    ensures TakeValue(PutEntry(e) + rest) == Ok((e.key, PutValue(e.value) + rest))
    ensures TakeValue(PutValue(e.value) + rest) == Ok((e.value, rest))
    decreases e, 0
  {
    AppendAssociates(PutValue(e.key), PutValue(e.value), rest);
    TakeInvertsPut(e.key, PutValue(e.value) + rest);
    TakeInvertsPut(e.value, rest);
  }

  lemma EntriesUnfold(entries: seq<Entry>)
    requires entries != [] && forall i :: 0 <= i < |entries| ==> Encodable(entries[i].key) && Encodable(entries[i].value)
    ensures PutEntries(entries) == PutEntry(entries[0]) + PutEntries(entries[1..])
  {
  }

  lemma ConsEntries(entries: seq<Entry>, rest: Bytes)
    requires entries != [] && forall i :: 0 <= i < |entries| ==> Encodable(entries[i].key) && Encodable(entries[i].value)
    ensures PutEntries(entries) + rest == PutEntry(entries[0]) + (PutEntries(entries[1..]) + rest)
  {
    EntriesUnfold(entries);
    AppendAssociates(PutEntry(entries[0]), PutEntries(entries[1..]), rest);
  }

  lemma {:induction false} EntriesRoundTrip(entries: seq<Entry>, rest: Bytes)
    requires forall i :: 0 <= i < |entries| ==> Encodable(entries[i].key) && Encodable(entries[i].value)
    ensures TakeEntries(|entries|, PutEntries(entries) + rest) == Ok((entries, rest))
    decreases entries, 0
  {
    if entries == [] {
      assert PutEntries(entries) + rest == rest;
    } else {
      var e, more := entries[0], PutEntries(entries[1..]) + rest;
      HeadAndTail(entries);
      ConsEntries(entries, rest);
      EntryRoundTrip(e, more);
      EntriesRoundTrip(entries[1..], rest);
      TakeEntriesStep(|entries|, PutEntries(entries) + rest, e.key, PutValue(e.value) + more, e.value, more);
    }
  }

  /** No written value is the beginning of another. */
  lemma PutPrefixFree(v: Value, w: Value, rest: Bytes, rest': Bytes)
    requires Encodable(v) && Encodable(w) && PutValue(v) + rest == PutValue(w) + rest'
    ensures v == w && rest == rest'
  {
    TakeInvertsPut(v, rest);
    TakeInvertsPut(w, rest');
  }

  /** The first byte of a head grows with the argument; where it stays the same, so does the width. */
  lemma HeadOrder(major: Major, n: U64, x: Bytes, m: U64, y: Bytes)
    ensures LexLess(PutHead(major, n) + x, PutHead(major, m) + y) <==> n < m || (n == m && LexLess(x, y))
  {
    var p, q := PutHead(major, n), PutHead(major, m);
    if p[0] == q[0] {
      LexSplit([p[0]], p[1..] + x, [q[0]], q[1..] + y);
      assert p + x == [p[0]] + (p[1..] + x) && q + y == [q[0]] + (q[1..] + y);
      LexTotal([p[0]], [q[0]]);
      ArgumentOrder(major, n, x, m, y);
    } else {
      assert (p + x)[0] == p[0] && (q + y)[0] == q[0];
    }
  }

  lemma ArgumentOrder(major: Major, n: U64, x: Bytes, m: U64, y: Bytes)
    requires PutHead(major, n)[0] == PutHead(major, m)[0]
    ensures LexLess(PutHead(major, n)[1..] + x, PutHead(major, m)[1..] + y) <==> n < m || (n == m && LexLess(x, y))
  {
    var p, q := PutHead(major, n)[1..], PutHead(major, m)[1..];
    if n < 24 {
      assert n == m && p == q == [] && p + x == x && q + y == y;
    } else {
      var w := Width(Info(n));
      assert m >= 24 && Info(n) == Info(m) && p == ToBe(n, w) && q == ToBe(m, w);
      InfoFits(n);
      InfoFits(m);
      BeRoundTrip(n, w);
      BeRoundTrip(m, w);
      LexSplit(p, x, q, y);
      LexIsNumeric(p, q);
    }
  }

  /** Written texts sort by length first, then as the texts do (section 4.2.1 of RFC 8949). */
  lemma TextOrder(a: Text, b: Text)
    ensures LexLess(PutValue(TextString(a)), PutValue(TextString(b))) <==> |a| < |b| || (|a| == |b| && LexLess(a, b))
  {
    TextBytes(a);
    TextBytes(b);
    HeadOrder(3, |a|, a, |b|, b);
  }

  lemma TextBytes(t: Text)
    ensures PutValue(TextString(t)) == PutHead(3, |t|) + t
  {
  }
}
