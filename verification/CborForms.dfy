/** What stands where in the bytes of a data item (section 3 of RFC 8949). */
module CborForms {
  import opened ByteStrings
  import opened Wrappers
  import opened Postcard
  import opened Cbor

  /** The initial byte of every kind of item, with an argument that fits in it. */
  lemma ShortForms(n: nat, s: Blob, t: Text, items: seq<Value>, entries: seq<Entry>, item: Value)
    requires n < 24 && |s| < 24 && |t| < 24 && |items| < 24 && |entries| < 24
    requires Encodable(Array(items)) && Encodable(Map(entries)) && Encodable(item)
    ensures PutValue(Integer(n)) == [n] && PutValue(Integer(-1 - n)) == [0x20 + n]
    ensures PutValue(ByteString(s)) == [0x40 + |s|] + s && PutValue(TextString(t)) == [0x60 + |t|] + t
    ensures PutValue(Array(items)) == [0x80 + |items|] + PutItems(items)
    ensures PutValue(Map(entries)) == [0xa0 + |entries|] + PutEntries(entries)
    ensures Encodable(Tag(n, item)) ==> PutValue(Tag(n, item)) == [0xc0 + n] + PutValue(item)
    ensures PutValue(Bool(false)) == [0xf4] && PutValue(Bool(true)) == [0xf5] && PutValue(Null) == [0xf6]
  {
  }

  /** Floats of the three widths; undefined reads as null. */
  lemma SimpleForms(bits: FloatBits, rest: Bytes)
    ensures |bits| == 2 ==> PutValue(Float(bits)) == [0xf9] + bits
    ensures |bits| == 4 ==> PutValue(Float(bits)) == [0xfa] + bits
    ensures |bits| == 8 ==> PutValue(Float(bits)) == [0xfb] + bits
    ensures TakeValue([0xf7] + rest) == Ok((Null, rest))
  {
    assert ([0xf7] + rest)[1..] == rest;
  }

  /** Longer arguments follow the initial byte, in as few of 1, 2, 4 or 8 bytes as hold them. */
  lemma LongForms(n: U64)
    requires n >= 24
    ensures n < 0x100 ==> PutValue(Integer(n)) == [0x18, n]
    ensures 0x100 <= n < 0x1_0000 ==> PutValue(Integer(n)) == [0x19, n / 256, n % 256]
    ensures 0x1_0000 <= n < 0x1_0000_0000 ==> PutValue(Integer(n)) == [0x1a] + ToBe(n, 4)
    ensures n >= 0x1_0000_0000 ==> PutValue(Integer(n)) == [0x1b] + ToBe(n, 8)
  {
    if n < 0x100 {
      assert ToBe(n, 1) == ToBe(n / 256, 0) + [n % 256];
    } else if n < 0x1_0000 {
      assert ToBe(n, 2) == ToBe(n / 256, 1) + [n % 256];
      assert ToBe(n / 256, 1) == ToBe(n / 256 / 256, 0) + [n / 256 % 256];
    }
  }

  /** No item starts with the byte that stands for the break. */
  lemma NoBreak(v: Value, rest: Bytes)
    requires Encodable(v)
    ensures PutValue(v) + rest != [] && (PutValue(v) + rest)[0] != BREAK
  {
    TakeInvertsPut(v, rest);
    BreakIsNoItem(PutValue(v) + rest);
  }

  lemma BreakIsNoItem(b: Bytes)
    requires TakeValue(b).Ok?
    ensures b != [] && b[0] != BREAK
  {
  }

  lemma OpenItemsStep(b: Bytes, v: Value, more: Bytes, items: seq<Value>, rest: Bytes)
    requires b != [] && b[0] != BREAK && TakeValue(b) == Ok((v, more)) && TakeOpenItems(more) == Ok((items, rest))
    ensures TakeOpenItems(b) == Ok(([v] + items, rest))
  {
  }

  lemma OpenEntriesStep(b: Bytes, k: Value, mid: Bytes, v: Value, more: Bytes, entries: seq<Entry>, rest: Bytes)
    requires b != [] && b[0] != BREAK && TakeValue(b) == Ok((k, mid)) && TakeValue(mid) == Ok((v, more))
    requires TakeOpenEntries(more) == Ok((entries, rest))
    ensures TakeOpenEntries(b) == Ok(([Entry(k, v)] + entries, rest))
  {
  }

  lemma BreakEnds(rest: Bytes)
    ensures TakeOpenItems([BREAK] + rest) == Ok(([], rest)) && TakeOpenEntries([BREAK] + rest) == Ok(([], rest))
    ensures TakeChunks(2, [BREAK] + rest) == Ok(([], rest)) && TakeChunks(3, [BREAK] + rest) == Ok(([], rest))
  {
    assert ([BREAK] + rest)[1..] == rest;
  }

  lemma {:induction false} OpenItemsRead(items: seq<Value>, rest: Bytes)
    requires forall i :: 0 <= i < |items| ==> Encodable(items[i])
    ensures TakeOpenItems(PutItems(items) + ([BREAK] + rest)) == Ok((items, rest))
    decreases |items|
  {
    var b := PutItems(items) + ([BREAK] + rest);
    if items == [] {
      assert b == [BREAK] + rest;
      BreakEnds(rest);
    } else {
      var more := PutItems(items[1..]) + ([BREAK] + rest);
      ConsItems(items, [BREAK] + rest);
      TakeInvertsPut(items[0], more);
      NoBreak(items[0], more);
      OpenItemsRead(items[1..], rest);
      OpenItemsStep(b, items[0], more, items[1..], rest);
      HeadAndTail(items);
    }
  }

  lemma {:induction false} OpenEntriesRead(entries: seq<Entry>, rest: Bytes)
    requires forall i :: 0 <= i < |entries| ==> Encodable(entries[i].key) && Encodable(entries[i].value)
    ensures TakeOpenEntries(PutEntries(entries) + ([BREAK] + rest)) == Ok((entries, rest))
    decreases |entries|
  {
    var b := PutEntries(entries) + ([BREAK] + rest);
    if entries == [] {
      assert b == [BREAK] + rest;
      BreakEnds(rest);
    } else {
      var e, more := entries[0], PutEntries(entries[1..]) + ([BREAK] + rest);
      ConsEntries(entries, [BREAK] + rest);
      EntryRoundTrip(e, more);
      AppendAssociates(PutValue(e.key), PutValue(e.value), more);
      NoBreak(e.key, PutValue(e.value) + more);
      OpenEntriesRead(entries[1..], rest);
      OpenEntriesStep(b, e.key, PutValue(e.value) + more, e.value, more, entries[1..], rest);
      HeadAndTail(entries);
    }
  }

  lemma OpenHead(major: Major, b: Bytes)
    requires 2 <= major <= 5
    ensures TakeValue([32 * major + 31] + b) == TakeOpen(major, b)
  {
    var all := [32 * major + 31] + b;
    assert all[0] / 32 == major && all[0] % 32 == 31 && all[1..] == b;
  }

  /** Arrays and maps of indefinite length: the same items, in their order, between another head
      and a break. */
  lemma OpenForms(items: seq<Value>, entries: seq<Entry>, rest: Bytes)
    requires forall i :: 0 <= i < |items| ==> Encodable(items[i])
    requires forall i :: 0 <= i < |entries| ==> Encodable(entries[i].key) && Encodable(entries[i].value)
    ensures TakeValue([0x9f] + (PutItems(items) + ([0xff] + rest))) == Ok((Array(items), rest))
    ensures TakeValue([0xbf] + (PutEntries(entries) + ([0xff] + rest))) == Ok((Map(entries), rest))
  {
    OpenItemsRead(items, rest);
    OpenHead(4, PutItems(items) + ([0xff] + rest));
    OpenEntriesRead(entries, rest);
    OpenHead(5, PutEntries(entries) + ([0xff] + rest));
  }

  ghost function Joined(chunks: seq<Bytes>): Bytes {
    if chunks == [] then [] else chunks[0] + Joined(chunks[1..])
  }

  /** The chunks as definite strings of one kind, one after the other. */
  ghost function PutChunks(major: Major, chunks: seq<Blob>): Bytes {
    if chunks == [] then [] else PutHead(major, |chunks[0]|) + (chunks[0] + PutChunks(major, chunks[1..]))
  }

  lemma {:induction false} ChunksRead(major: Major, chunks: seq<Blob>, rest: Bytes)
    requires (major == 2 || major == 3) && |Joined(chunks)| < U64_LIMIT
    requires major == 3 ==> forall i :: 0 <= i < |chunks| ==> ValidUtf8(chunks[i])
    ensures TakeChunks(major, PutChunks(major, chunks) + ([BREAK] + rest)) == Ok((Joined(chunks), rest))
    decreases |chunks|
  {
    var b := PutChunks(major, chunks) + ([BREAK] + rest);
    if chunks == [] {
      assert b == [BREAK] + rest;
      BreakEnds(rest);
    } else {
      var c, more := chunks[0], PutChunks(major, chunks[1..]) + ([BREAK] + rest);
      AppendAssociates(PutHead(major, |c|), c + PutChunks(major, chunks[1..]), [BREAK] + rest);
      AppendAssociates(c, PutChunks(major, chunks[1..]), [BREAK] + rest);
      ChunksRead(major, chunks[1..], rest);
      ChunkStep(major, c, more, Joined(chunks[1..]), rest);
    }
  }

  lemma ChunkStep(major: Major, c: Blob, more: Bytes, joined: Blob, rest: Bytes)
    requires (major == 2 || major == 3) && (major == 3 ==> ValidUtf8(c)) && |c| + |joined| < U64_LIMIT
    requires TakeChunks(major, more) == Ok((joined, rest))
    ensures TakeChunks(major, PutHead(major, |c|) + (c + more)) == Ok((c + joined, rest))
  {
    HeadRoundTrip(major, |c|, c + more);
    SliceRoundTrip(c, more);
    assert (PutHead(major, |c|) + (c + more))[0] != BREAK;
  }

  /** Strings of indefinite length: their chunks, joined. */
  lemma OpenStrings(chunks: seq<Blob>, rest: Bytes)
    requires |Joined(chunks)| < U64_LIMIT
    ensures TakeValue([0x5f] + (PutChunks(2, chunks) + ([0xff] + rest))) == Ok((ByteString(Joined(chunks)), rest))
    ensures (forall i :: 0 <= i < |chunks| ==> ValidUtf8(chunks[i])) ==>
      ValidUtf8(Joined(chunks)) && TakeValue([0x7f] + (PutChunks(3, chunks) + ([0xff] + rest))) == Ok((TextString(Joined(chunks)), rest))
  {
    ChunksRead(2, chunks, rest);
    OpenHead(2, PutChunks(2, chunks) + ([0xff] + rest));
    if forall i :: 0 <= i < |chunks| ==> ValidUtf8(chunks[i]) {
      ChunksRead(3, chunks, rest);
      OpenHead(3, PutChunks(3, chunks) + ([0xff] + rest));
    }
  }
}
