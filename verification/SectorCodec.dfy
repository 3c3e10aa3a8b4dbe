/** `Sector` and its stored form. */
module SectorCodec {
  import opened ByteStrings
  import opened Wrappers
  import opened Postcard

  datatype Sector = Sector(
    id: Id16,
    kind: Text,
    identityId: Text,
    machineId: Text,
    createdAt: U64,
    payload: Blob,
    prev: Option<Id16>)

  function EncodeSector(s: Sector): Bytes {
    s.id + (PutBlob(s.kind) + (PutBlob(s.identityId) + (PutBlob(s.machineId)
    + (Varint(s.createdAt) + (PutBlob(s.payload) + PutOptionId(s.prev))))))
  }

  function TakeSector(b: Bytes): Parsed<Sector> {
    var (id, b1) :- TakeId(b);
    var (kind, b2) :- TakeText(b1);
    var (identityId, b3) :- TakeText(b2);
    var (machineId, b4) :- TakeText(b3);
    var (createdAt, b5) :- TakeU64(b4);
    var (payload, b6) :- TakeBlob(b5);
    var (prev, b7) :- TakeOptionId(b6);
    Ok((Sector(id, kind, identityId, machineId, createdAt, payload, prev), b7))
  }

  /** `from_bytes` leaves what follows the record unread. */
  function DecodeSector(b: Bytes): Result<Sector, DecodeError> {
    var (s, _) :- TakeSector(b);
    Ok(s)
  }

  lemma TakeInvertsEncode(s: Sector, rest: Bytes)
    ensures TakeSector(EncodeSector(s) + rest) == Ok((s, rest))
  {
    var t6 := PutOptionId(s.prev) + rest;
    var t5 := PutBlob(s.payload) + t6;
    var t4 := Varint(s.createdAt) + t5;
    var t3 := PutBlob(s.machineId) + t4;
    var t2 := PutBlob(s.identityId) + t3;
    var t1 := PutBlob(s.kind) + t2;
    assert EncodeSector(s) + rest == s.id + t1;
    IdRoundTrip(s.id, t1);
    TextRoundTrip(s.kind, t2);
    TextRoundTrip(s.identityId, t3);
    TextRoundTrip(s.machineId, t4);
    U64RoundTrip(s.createdAt, t5);
    BlobRoundTrip(s.payload, t6);
    OptionIdRoundTrip(s.prev, rest);
  }

  lemma DecodeInvertsEncode(s: Sector, rest: Bytes)
    ensures DecodeSector(EncodeSector(s)) == Ok(s)
    ensures DecodeSector(EncodeSector(s) + rest) == Ok(s)
  {
    TakeInvertsEncode(s, rest);
    TakeInvertsEncode(s, []);
    assert EncodeSector(s) + [] == EncodeSector(s);
  }

  /** No encoding is a prefix of another, so encodings can be told apart in any byte stream. */
  lemma EncodingPrefixFree(a: Sector, b: Sector, rest: Bytes, rest': Bytes)
    requires EncodeSector(a) + rest == EncodeSector(b) + rest'
    ensures a == b && rest == rest'
  {
    TakeInvertsEncode(a, rest);
    TakeInvertsEncode(b, rest');
  }

  /** Every strict prefix of an encoding is rejected. */
  lemma TruncationRejected(s: Sector, cut: nat)
    requires cut < |EncodeSector(s)|
    ensures DecodeSector(EncodeSector(s)[..cut]).Err?
  {
    var e := EncodeSector(s);
    var p := e[..cut];
    assert e == p + e[cut..];
    TakeInvertsEncode(s, []);
    assert e + [] == e;
    if TakeSector(p).Ok? {
      TakeExtends(p, e[cut..]);
    }
  }

  lemma {:induction false} VarintExtends(b: Bytes, left: nat, more: Bytes)
    requires TakeVarint(b, left).Ok?
    ensures TakeVarint(b + more, left) == Ok((TakeVarint(b, left).value.0, TakeVarint(b, left).value.1 + more))
  {
    assert (b + more)[1..] == b[1..] + more;
    if b[0] < 128 {
    } else {
      VarintExtends(b[1..], left - 1, more);
    }
  }

  lemma IdExtends(b: Bytes, more: Bytes)
    requires TakeId(b).Ok?
    ensures TakeId(b + more) == Ok((TakeId(b).value.0, TakeId(b).value.1 + more))
  {
    assert (b + more)[..16] == b[..16] && (b + more)[16..] == b[16..] + more;
  }

  lemma BlobExtends(b: Bytes, more: Bytes)
    requires TakeBlob(b).Ok?
    ensures TakeBlob(b + more) == Ok((TakeBlob(b).value.0, TakeBlob(b).value.1 + more))
  {
    VarintExtends(b, 10, more);
    var (n, rest) := TakeU64(b).value;
    assert (rest + more)[..n] == rest[..n] && (rest + more)[n..] == rest[n..] + more;
  }

  lemma TextExtends(b: Bytes, more: Bytes)
    requires TakeText(b).Ok?
    ensures TakeText(b + more) == Ok((TakeText(b).value.0, TakeText(b).value.1 + more))
  {
    BlobExtends(b, more);
  }

  lemma OptionIdExtends(b: Bytes, more: Bytes)
    requires TakeOptionId(b).Ok?
    ensures TakeOptionId(b + more) == Ok((TakeOptionId(b).value.0, TakeOptionId(b).value.1 + more))
  {
    assert (b + more)[1..] == b[1..] + more;
    if b[0] == 1 {
      IdExtends(b[1..], more);
    }
  }

  /** Bytes after a record change neither it nor what is left over. */
  lemma TakeExtends(b: Bytes, more: Bytes)
    requires TakeSector(b).Ok?
    ensures TakeSector(b + more) == Ok((TakeSector(b).value.0, TakeSector(b).value.1 + more))
  {
    IdExtends(b, more);
    var b1 := TakeId(b).value.1;
    TextExtends(b1, more);
    var b2 := TakeText(b1).value.1;
    TextExtends(b2, more);
    var b3 := TakeText(b2).value.1;
    TextExtends(b3, more);
    var b4 := TakeText(b3).value.1;
    VarintExtends(b4, 10, more);
    var b5 := TakeU64(b4).value.1;
    BlobExtends(b5, more);
    OptionIdExtends(TakeBlob(b5).value.1, more);
  }

  /** The layout of the first vector of the storage crate's known-answer file. */
  lemma KnownAnswer(s: Sector)
    requires |s.kind| == 12 && |s.identityId| == 5 && |s.machineId| == 2
    requires s.createdAt == 1000 && s.payload == [] && s.prev == None
    ensures EncodeSector(s)
         == s.id + [0x0c] + s.kind + [0x05] + s.identityId + [0x02] + s.machineId + [0xe8, 0x07, 0x00, 0x00]
  {
    assert Varint(1000) == [0xe8, 0x07];
  }
}
