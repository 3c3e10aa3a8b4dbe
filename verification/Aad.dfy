/** The additional authenticated data of a message, as a six-entry CBOR map. */
module Aad {
  import opened ByteStrings
  import opened Wrappers
  import opened Postcard
  import opened Cbor
  import opened CborForms

  datatype MessageAad = MessageAad(
    schemaTag: U32,
    sectorId: Id16,
    senderIdentity: Id16,
    senderMachine: Id16,
    epoch: U64,
    prevSectorId: Option<Id16>)

  datatype AadError = Malformed(error: CborError) | NotAMap | BadField(key: Bytes) | Missing(key: Bytes)

  /** The names of the six map entries. */
  datatype KeyNames = KeyNames(epoch: Text, prev: Text, tag: Text, sector: Text, identity: Text, machine: Text)

  predicate Distinct(k: KeyNames) {
    && k.epoch !in {k.prev, k.tag, k.sector, k.identity, k.machine}
    && k.prev !in {k.tag, k.sector, k.identity, k.machine}
    && k.tag !in {k.sector, k.identity, k.machine}
    && k.sector !in {k.identity, k.machine}
    && k.identity != k.machine
  }

  /** Only distinctness of the names matters below; `SourceKeys` gives the ones in use. */
  type Keys = k: KeyNames | Distinct(k) witness SourceKeys()

  datatype Names = Names(epoch: string, prev: string, tag: string, sector: string, identity: string, machine: string)

  const FIELD_NAMES: Names :=
    Names("epoch", "prev_sector_id", "schema_tag", "sector_id", "sender_identity", "sender_machine")

  /** What tells the names apart: their lengths, and for the two of 14 letters the first. */
  predicate Shaped(n: Names) {
    && |n.epoch| == 5 && |n.prev| == 14 && |n.tag| == 10 && |n.sector| == 9 && |n.identity| == 15 && |n.machine| == 14
    && n.prev[0] == 'p' && n.tag[0] == 's' && n.machine[0] == 's'
  }

  function AsKeys(n: Names): (k: KeyNames)
    requires Shaped(n)
    ensures Distinct(k)
  {
    var k := KeyNames(AsText(n.epoch), AsText(n.prev), AsText(n.tag), AsText(n.sector), AsText(n.identity), AsText(n.machine));
    DistinctByShape(k);
    k
  }

  function SourceKeys(): (k: KeyNames)
    ensures Distinct(k)
  {
    NamesShaped();
    AsKeys(FIELD_NAMES)
  }

  lemma NamesShaped()
    ensures Shaped(FIELD_NAMES)
  {
  }

  lemma DistinctByShape(k: KeyNames)
    requires |k.epoch| == 5 && |k.prev| == 14 && |k.tag| == 10 && |k.sector| == 9 && |k.identity| == 15 && |k.machine| == 14
    requires k.prev[0] != k.machine[0]
    ensures Distinct(k)
  {
  }

  function PrevValue(prev: Option<Id16>): Value {
    if prev.Some? then ByteString(prev.value) else Null
  }

  /** The entries in the fixed order in which they are written. */
  function EntriesOf(keys: Keys, a: MessageAad): seq<Entry> {
    [ Entry(TextString(keys.epoch), Integer(a.epoch)),
      Entry(TextString(keys.prev), PrevValue(a.prevSectorId)),
      Entry(TextString(keys.tag), Integer(a.schemaTag)),
      Entry(TextString(keys.sector), ByteString(a.sectorId)),
      Entry(TextString(keys.identity), ByteString(a.senderIdentity)),
      Entry(TextString(keys.machine), ByteString(a.senderMachine)) ]
  }

  lemma EntriesEncodable(keys: Keys, a: MessageAad)
    ensures Encodable(Map(EntriesOf(keys, a)))
  {
    forall i | 0 <= i < 6
      ensures Encodable(EntriesOf(keys, a)[i].key) && Encodable(EntriesOf(keys, a)[i].value)
    {
      assert Encodable(PrevValue(a.prevSectorId));
    }
  }

  function Encode(keys: Keys, a: MessageAad): Bytes {
    EntriesEncodable(keys, a);
    PutValue(Map(EntriesOf(keys, a)))
  }

  /** The six locals of the decoding loop. */
  datatype Fields = Fields(
    epoch: Option<U64>,
    prev: Option<Option<Id16>>,
    tag: Option<U32>,
    sector: Option<Id16>,
    identity: Option<Id16>,
    machine: Option<Id16>)

  const NO_FIELDS: Fields := Fields(None, None, None, None, None, None)

  function ExtractU64(v: Value, key: Bytes): Result<U64, AadError> {
    if v.Integer? && 0 <= v.n < U64_LIMIT then Ok(v.n) else Err(BadField(key))
  }

  function ExtractBytes16(v: Value, key: Bytes): Result<Id16, AadError> {
    if v.ByteString? && |v.bytes| == 16 then Ok(v.bytes) else Err(BadField(key))
  }

  function ExtractPrev(keys: Keys, v: Value): Result<Option<Id16>, AadError> {
    if v.Null? then Ok(None)
    else
      var id :- ExtractBytes16(v, keys.prev);
      Ok(Some(id))
  }

  /** One turn of the loop: entries with other keys pass by, a repeated key overwrites, the
      schema tag is cut to 32 bits. */
  function Absorb(keys: Keys, f: Fields, e: Entry): Result<Fields, AadError> {
    if !e.key.TextString? then Ok(f)
    else if e.key.text == keys.epoch then
      var v :- ExtractU64(e.value, keys.epoch);
      Ok(f.(epoch := Some(v)))
    else if e.key.text == keys.prev then
      var v :- ExtractPrev(keys, e.value);
      Ok(f.(prev := Some(v)))
    else if e.key.text == keys.tag then
      var v :- ExtractU64(e.value, keys.tag);
      Ok(f.(tag := Some(v % U32_LIMIT)))
    else if e.key.text == keys.sector then
      var v :- ExtractBytes16(e.value, keys.sector);
      Ok(f.(sector := Some(v)))
    else if e.key.text == keys.identity then
      var v :- ExtractBytes16(e.value, keys.identity);
      Ok(f.(identity := Some(v)))
    else if e.key.text == keys.machine then
      var v :- ExtractBytes16(e.value, keys.machine);
      Ok(f.(machine := Some(v)))
    else Ok(f)
  }

  function AbsorbAll(keys: Keys, f: Fields, entries: seq<Entry>): Result<Fields, AadError>
    decreases |entries|
  {
    if entries == [] then Ok(f)
    else
      var f' :- Absorb(keys, f, entries[0]);
      AbsorbAll(keys, f', entries[1..])
  }

  function Assemble(keys: Keys, f: Fields): Result<MessageAad, AadError> {
    if f.tag.None? then Err(Missing(keys.tag))
    else if f.sector.None? then Err(Missing(keys.sector))
    else if f.identity.None? then Err(Missing(keys.identity))
    else if f.machine.None? then Err(Missing(keys.machine))
    else if f.epoch.None? then Err(Missing(keys.epoch))
    else if f.prev.None? then Err(Missing(keys.prev))
    else Ok(MessageAad(f.tag.value, f.sector.value, f.identity.value, f.machine.value, f.epoch.value, f.prev.value))
  }

  function DecodeEntries(keys: Keys, entries: seq<Entry>): Result<MessageAad, AadError> {
    var f :- AbsorbAll(keys, NO_FIELDS, entries);
    Assemble(keys, f)
  }

  /** Reads one item and ignores what follows it. */
  function DecodeSpec(keys: Keys, b: Bytes): Result<MessageAad, AadError> {
    var r := TakeValue(b);
    if r.Err? then Err(Malformed(r.error))
    else if !r.value.0.Map? then Err(NotAMap)
    else DecodeEntries(keys, r.value.0.entries)
  }

  method Decode(keys: Keys, b: Bytes) returns (r: Result<MessageAad, AadError>)
    ensures r == DecodeSpec(keys, b)
    ensures TakeValue(b).Err? ==> r == Err(Malformed(TakeValue(b).error))
    ensures TakeValue(b).Ok? && !TakeValue(b).value.0.Map? ==> r == Err(NotAMap)
  {
    var read := TakeValue(b);
    if read.Err? {
      return Err(Malformed(read.error));
    }
    if !read.value.0.Map? {
      return Err(NotAMap);
    }
    var entries := read.value.0.entries;
    var f := NO_FIELDS;
    var i := 0;
    while i < |entries|
      invariant 0 <= i <= |entries|
      invariant AbsorbAll(keys, NO_FIELDS, entries) == AbsorbAll(keys, f, entries[i..])
    {
      assert entries[i..][0] == entries[i] && entries[i..][1..] == entries[i + 1..];
      var absorbed := Absorb(keys, f, entries[i]);
      if absorbed.Err? {
        return Err(absorbed.error);
      }
      f := absorbed.value;
      i := i + 1;
    }
    r := Assemble(keys, f);
  }

  /** No field read so far disagrees with `a`. */
  ghost predicate Agrees(f: Fields, a: MessageAad) {
    && (f.epoch.Some? ==> f.epoch.value == a.epoch)
    && (f.prev.Some? ==> f.prev.value == a.prevSectorId)
    && (f.tag.Some? ==> f.tag.value == a.schemaTag)
    && (f.sector.Some? ==> f.sector.value == a.sectorId)
    && (f.identity.Some? ==> f.identity.value == a.senderIdentity)
    && (f.machine.Some? ==> f.machine.value == a.senderMachine)
  }

  predicate IsFieldKey(keys: Keys, k: Value) {
    k.TextString? && (k.text == keys.epoch || k.text == keys.prev || k.text == keys.tag || k.text == keys.sector || k.text == keys.identity || k.text == keys.machine)
  }

  /** The fields of `a` found among the entries, in the order of `EntriesOf`. */
  ghost predicate Has(f: Fields, i: nat) {
    match i
    case 0 => f.epoch.Some?
    case 1 => f.prev.Some?
    case 2 => f.tag.Some?
    case 3 => f.sector.Some?
    case 4 => f.identity.Some?
    case 5 => f.machine.Some?
    case _ => true
  }

  /** What absorbing the `i`-th entry of `a` does. */
  ghost function Filled(f: Fields, i: nat, a: MessageAad): Fields {
    match i
    case 0 => f.(epoch := Some(a.epoch))
    case 1 => f.(prev := Some(a.prevSectorId))
    case 2 => f.(tag := Some(a.schemaTag))
    case 3 => f.(sector := Some(a.sectorId))
    case 4 => f.(identity := Some(a.senderIdentity))
    case 5 => f.(machine := Some(a.senderMachine))
    case _ => f
  }

  lemma AbsorbFills(keys: Keys, f: Fields, i: nat, a: MessageAad)
    requires i < 6
    ensures Absorb(keys, f, EntriesOf(keys, a)[i]) == Ok(Filled(f, i, a))
  {
    var k := EntriesOf(keys, a)[i].key.text;
    if i == 0 {
      assert k == keys.epoch;
    } else if i == 1 {
      assert k == keys.prev;
    } else if i == 2 {
      assert k == keys.tag;
    } else if i == 3 {
      assert k == keys.sector;
    } else if i == 4 {
      assert k == keys.identity;
    } else {
      assert k == keys.machine;
    }
  }

  lemma AbsorbKnown(keys: Keys, f: Fields, n: nat, a: MessageAad)
    requires n < 6 && Agrees(f, a)
    ensures var e := EntriesOf(keys, a)[n]; Absorb(keys, f, e).Ok? && Agrees(Absorb(keys, f, e).value, a)
    ensures Has(Absorb(keys, f, EntriesOf(keys, a)[n]).value, n)
    ensures forall i :: 0 <= i < 6 && Has(f, i) ==> Has(Absorb(keys, f, EntriesOf(keys, a)[n]).value, i)
  {
    AbsorbFills(keys, f, n, a);
    FilledAgrees(f, n, a);
  }

  lemma FilledAgrees(f: Fields, n: nat, a: MessageAad)
    requires n < 6 && Agrees(f, a)
    ensures Agrees(Filled(f, n, a), a) && Has(Filled(f, n, a), n)
    ensures forall i :: 0 <= i < 6 && Has(f, i) ==> Has(Filled(f, n, a), i)
  {
  }

  lemma KeysOnce(keys: Keys, i: nat, n: nat, a: MessageAad)
    requires i < 6 && n < 6 && EntriesOf(keys, a)[i].key == EntriesOf(keys, a)[n].key
    ensures i == n
  {
  }

  lemma KeysKnown(keys: Keys, i: nat, a: MessageAad)
    requires i < 6
    ensures IsFieldKey(keys, EntriesOf(keys, a)[i].key)
  {
  }

  lemma AbsorbAgrees(keys: Keys, f: Fields, e: Entry, a: MessageAad)
    requires Agrees(f, a) && (IsFieldKey(keys, e.key) ==> e in EntriesOf(keys, a))
    ensures Absorb(keys, f, e).Ok? && Agrees(Absorb(keys, f, e).value, a)
    ensures forall i :: 0 <= i < 6 && (Has(f, i) || e == EntriesOf(keys, a)[i]) ==> Has(Absorb(keys, f, e).value, i)
  {
    var entries := EntriesOf(keys, a);
    if IsFieldKey(keys, e.key) {
      var n :| 0 <= n < |entries| && e == entries[n];
      AbsorbKnown(keys, f, n, a);
      forall i | 0 <= i < 6 && e == entries[i] ensures i == n {
        KeysOnce(keys, i, n, a);
      }
    } else {
      assert Absorb(keys, f, e) == Ok(f);
      forall i | 0 <= i < 6 ensures e != entries[i] {
        KeysKnown(keys, i, a);
      }
    }
  }

  lemma {:induction false} AbsorbAllAgrees(keys: Keys, f: Fields, entries: seq<Entry>, a: MessageAad)
    requires Agrees(f, a)
    requires forall e :: e in entries && IsFieldKey(keys, e.key) ==> e in EntriesOf(keys, a)
    ensures AbsorbAll(keys, f, entries).Ok? && Agrees(AbsorbAll(keys, f, entries).value, a)
    ensures forall i :: 0 <= i < 6 && (Has(f, i) || EntriesOf(keys, a)[i] in entries) ==> Has(AbsorbAll(keys, f, entries).value, i)
    decreases |entries|
  {
    if entries == [] {
    } else {
      AbsorbAgrees(keys, f, entries[0], a);
      AbsorbAllAgrees(keys, Absorb(keys, f, entries[0]).value, entries[1..], a);
      assert entries == [entries[0]] + entries[1..];
    }
  }

  /** The six entries of `a` in any order, repeated or mixed with any entries under other keys. */
  ghost predicate Carries(keys: Keys, entries: seq<Entry>, a: MessageAad) {
    && (forall i :: 0 <= i < 6 ==> EntriesOf(keys, a)[i] in entries)
    && (forall e :: e in entries && IsFieldKey(keys, e.key) ==> e in EntriesOf(keys, a))
  }

  lemma DecodeEntriesTolerant(keys: Keys, entries: seq<Entry>, a: MessageAad)
    requires Carries(keys, entries, a)
    ensures DecodeEntries(keys, entries) == Ok(a)
  {
    AbsorbAllAgrees(keys, NO_FIELDS, entries, a);
    var f := AbsorbAll(keys, NO_FIELDS, entries).value;
    assert Has(f, 0) && Has(f, 1) && Has(f, 2) && Has(f, 3) && Has(f, 4) && Has(f, 5);
  }

  /** Decoding is insensitive to the order of the entries, to repetitions, to unknown keys with
      any values, and to how the map was written: any bytes that read as such a map will do. */
  lemma DecodeTolerant(keys: Keys, b: Bytes, entries: seq<Entry>, rest: Bytes, a: MessageAad)
    requires TakeValue(b) == Ok((Map(entries), rest)) && Carries(keys, entries, a)
    ensures DecodeSpec(keys, b) == Ok(a)
  {
    DecodeEntriesTolerant(keys, entries, a);
  }

  /** So any such entries written as a map will do. */
  lemma DecodeWritten(keys: Keys, entries: seq<Entry>, a: MessageAad, rest: Bytes)
    requires Carries(keys, entries, a) && Encodable(Map(entries))
    ensures DecodeSpec(keys, PutValue(Map(entries)) + rest) == Ok(a)
  {
    TakeInvertsPut(Map(entries), rest);
    DecodeTolerant(keys, PutValue(Map(entries)) + rest, entries, rest, a);
  }

  /** The six names, in the order in which they are written. */
  function KeyAt(keys: Keys, i: nat): Text {
    match i
    case 0 => keys.epoch
    case 1 => keys.prev
    case 2 => keys.tag
    case 3 => keys.sector
    case 4 => keys.identity
    case _ => keys.machine
  }

  ghost predicate Named(keys: Keys, e: Entry, i: nat) {
    e.key == TextString(KeyAt(keys, i))
  }

  /** What may stand under the name: an unsigned number, an id, or for `prev_sector_id` an id or null. */
  ghost predicate OfKind(i: nat, v: Value) {
    match i
    case 0 => v.Integer? && 0 <= v.n < U64_LIMIT
    case 1 => v == Null || (v.ByteString? && |v.bytes| == 16)
    case 2 => v.Integer? && 0 <= v.n < U64_LIMIT
    case _ => v.ByteString? && |v.bytes| == 16
  }

  /** The field number `i` of `a`, as a value of the map; of a schema tag only 32 bits are kept. */
  ghost predicate FieldIs(a: MessageAad, i: nat, v: Value) {
    match i
    case 0 => v == Integer(a.epoch)
    case 1 => v == if a.prevSectorId.Some? then ByteString(a.prevSectorId.value) else Null
    case 2 => v.Integer? && a.schemaTag == v.n % 0x1_0000_0000
    case 3 => v == ByteString(a.sectorId)
    case 4 => v == ByteString(a.senderIdentity)
    case _ => v == ByteString(a.senderMachine)
  }

  /** The last entry under the name. */
  ghost function LastNamed(keys: Keys, entries: seq<Entry>, i: nat): (last: Option<nat>)
    ensures last.Some? ==> last.value < |entries| && Named(keys, entries[last.value], i)
    ensures forall j :: (if last.Some? then last.value + 1 else 0) <= j < |entries| ==> !Named(keys, entries[j], i)
    decreases |entries|
  {
    if entries == [] then None
    else
      var later := LastNamed(keys, entries[1..], i);
      assert forall j :: 1 <= j < |entries| ==> entries[j] == entries[1..][j - 1];
      if later.Some? then Some(later.value + 1)
      else if Named(keys, entries[0], i) then Some(0)
      else None
  }

  /** Every entry under one of the names, up to `n`, holds a value of its kind. */
  ghost predicate AllOfKind(keys: Keys, entries: seq<Entry>, n: nat)
    requires n <= |entries|
  {
    forall j, i :: 0 <= j < n && 0 <= i < 6 && Named(keys, entries[j], i) ==> OfKind(i, entries[j].value)
  }

  ghost predicate Present(keys: Keys, entries: seq<Entry>, i: nat) {
    exists j :: 0 <= j < |entries| && Named(keys, entries[j], i)
  }

  /** The local number `i` holds the value. */
  ghost predicate Holds(f: Fields, i: nat, v: Value) {
    match i
    case 0 => f.epoch.Some? && v == Integer(f.epoch.value)
    case 1 => f.prev.Some? && v == PrevValue(f.prev.value)
    case 2 => v.Integer? && f.tag == Some(v.n % U32_LIMIT)
    case 3 => f.sector.Some? && v == ByteString(f.sector.value)
    case 4 => f.identity.Some? && v == ByteString(f.identity.value)
    case _ => f.machine.Some? && v == ByteString(f.machine.value)
  }

  ghost predicate SameLocal(f: Fields, f': Fields, i: nat) {
    match i
    case 0 => f.epoch == f'.epoch
    case 1 => f.prev == f'.prev
    case 2 => f.tag == f'.tag
    case 3 => f.sector == f'.sector
    case 4 => f.identity == f'.identity
    case _ => f.machine == f'.machine
  }

  lemma NamedOnce(keys: Keys, e: Entry, i: nat, k: nat)
    requires i < 6 && k < 6 && Named(keys, e, i) && Named(keys, e, k)
    ensures i == k
  {
  }

  lemma AbsorbNamed(keys: Keys, f: Fields, e: Entry, i: nat, k: nat)
    requires i < 6 && k < 6 && Named(keys, e, i)
    ensures var r := Absorb(keys, f, e);
      if OfKind(i, e.value) then r.Ok? && Holds(r.value, i, e.value) && (k != i ==> SameLocal(f, r.value, k))
      else r == Err(BadField(KeyAt(keys, i)))
  {
    assert e.key.text == KeyAt(keys, i);
  }

  lemma AbsorbUnnamed(keys: Keys, f: Fields, e: Entry)
    requires forall i :: 0 <= i < 6 ==> !Named(keys, e, i)
    ensures Absorb(keys, f, e) == Ok(f)
  {
    assert !Named(keys, e, 0) && !Named(keys, e, 1) && !Named(keys, e, 2);
    assert !Named(keys, e, 3) && !Named(keys, e, 4) && !Named(keys, e, 5);
  }

  /** One turn of the loop, seen from the local number `i`. */
  lemma AbsorbAt(keys: Keys, f: Fields, e: Entry, i: nat)
    requires i < 6
    requires forall k :: 0 <= k < 6 && Named(keys, e, k) ==> OfKind(k, e.value)
    ensures var r := Absorb(keys, f, e);
      r.Ok? && if Named(keys, e, i) then Holds(r.value, i, e.value) else SameLocal(f, r.value, i)
  {
    if k: nat :| k < 6 && Named(keys, e, k) {
      AbsorbNamed(keys, f, e, k, i);
      if Named(keys, e, i) {
        NamedOnce(keys, e, i, k);
      }
    } else {
      AbsorbUnnamed(keys, f, e);
    }
  }

  lemma AllOfKindTail(keys: Keys, entries: seq<Entry>)
    requires entries != [] && AllOfKind(keys, entries, |entries|)
    ensures AllOfKind(keys, entries[1..], |entries| - 1)
    ensures forall k :: 0 <= k < 6 && Named(keys, entries[0], k) ==> OfKind(k, entries[0].value)
  {
    forall j, i | 0 <= j < |entries| - 1 && 0 <= i < 6 && Named(keys, entries[1..][j], i) ensures OfKind(i, entries[1..][j].value) {
      assert entries[1..][j] == entries[j + 1];
    }
  }

  /** The loop keeps, for each name, what stands last under it. */
  lemma {:induction false} AbsorbAllAt(keys: Keys, f: Fields, entries: seq<Entry>, i: nat)
    requires i < 6 && AllOfKind(keys, entries, |entries|)
    ensures var r, last := AbsorbAll(keys, f, entries), LastNamed(keys, entries, i);
      r.Ok? && if last.Some? then Holds(r.value, i, entries[last.value].value) else SameLocal(f, r.value, i)
    decreases |entries|
  {
    if entries == [] {
    } else {
      AllOfKindTail(keys, entries);
      AbsorbAt(keys, f, entries[0], i);
      AbsorbAllAt(keys, Absorb(keys, f, entries[0]).value, entries[1..], i);
    }
  }

  /** It stops at the first entry whose value is not of its kind. */
  lemma {:induction false} AbsorbAllStops(keys: Keys, f: Fields, entries: seq<Entry>, j: nat, i: nat)
    requires j < |entries| && i < 6 && AllOfKind(keys, entries, j) && Named(keys, entries[j], i) && !OfKind(i, entries[j].value)
    ensures AbsorbAll(keys, f, entries) == Err(BadField(KeyAt(keys, i)))
    decreases j
  {
    if j == 0 {
      AbsorbNamed(keys, f, entries[0], i, i);
    } else {
      assert forall k :: 0 <= k < 6 && Named(keys, entries[0], k) ==> OfKind(k, entries[0].value);
      AbsorbAt(keys, f, entries[0], i);
      var t := entries[1..];
      forall l, k | 0 <= l < j - 1 && 0 <= k < 6 && Named(keys, t[l], k) ensures OfKind(k, t[l].value) {
        assert t[l] == entries[l + 1];
      }
      assert t[j - 1] == entries[j];
      AbsorbAllStops(keys, Absorb(keys, f, entries[0]).value, t, j - 1, i);
    }
  }

  /** What stands in `b`, when it reads as a map. */
  ghost function EntriesIn(b: Bytes): Option<seq<Entry>> {
    var r := TakeValue(b);
    if r.Ok? && r.value.0.Map? then Some(r.value.0.entries) else None
  }

  /** Decoding succeeds if and only if the bytes read as a map in which all six names occur among
      the text keys, and every value under one of them is of its kind. */
  lemma DecodeOkIff(keys: Keys, b: Bytes)
    ensures DecodeSpec(keys, b).Ok? <==>
      && EntriesIn(b).Some?
      && var entries := EntriesIn(b).value;
        && (forall i :: 0 <= i < 6 ==> Present(keys, entries, i))
        && (forall j, i :: 0 <= j < |entries| && 0 <= i < 6 && Named(keys, entries[j], i) ==> OfKind(i, entries[j].value))
  {
    if EntriesIn(b).Some? {
      var entries := EntriesIn(b).value;
      if AllOfKind(keys, entries, |entries|) {
        LocalsPresent(keys, entries);
        CompleteIff(keys, AbsorbAll(keys, NO_FIELDS, entries).value);
      } else {
        var j, i := FirstBad(keys, entries);
        AbsorbAllStops(keys, NO_FIELDS, entries, j, i);
      }
    }
  }

  lemma CompleteIff(keys: Keys, f: Fields)
    ensures Assemble(keys, f).Ok? <==> forall i :: 0 <= i < 6 ==> Has(f, i)
  {
    if forall i :: 0 <= i < 6 ==> Has(f, i) {
      assert Has(f, 0) && Has(f, 1) && Has(f, 2) && Has(f, 3) && Has(f, 4) && Has(f, 5);
    }
  }

  lemma FirstBad(keys: Keys, entries: seq<Entry>) returns (j: nat, i: nat)
    requires !AllOfKind(keys, entries, |entries|)
    ensures j < |entries| && i < 6 && AllOfKind(keys, entries, j) && Named(keys, entries[j], i) && !OfKind(i, entries[j].value)
  {
    j := 0;
    while AllOfKind(keys, entries, j + 1)
      invariant j < |entries| && AllOfKind(keys, entries, j)
      decreases |entries| - j
    {
      j := j + 1;
    }
    var l: nat, k: nat :| l < j + 1 && k < 6 && Named(keys, entries[l], k) && !OfKind(k, entries[l].value);
    i := k;
  }

  /** After the loop a local is set if and only if its name occurred. */
  lemma LocalsPresent(keys: Keys, entries: seq<Entry>)
    requires AllOfKind(keys, entries, |entries|)
    ensures AbsorbAll(keys, NO_FIELDS, entries).Ok?
    ensures forall i :: 0 <= i < 6 ==> (Present(keys, entries, i) <==> Has(AbsorbAll(keys, NO_FIELDS, entries).value, i))
  {
    AbsorbAllAt(keys, NO_FIELDS, entries, 0);
    var f := AbsorbAll(keys, NO_FIELDS, entries).value;
    forall i | 0 <= i < 6 ensures Present(keys, entries, i) <==> Has(f, i) {
      LocalPresent(keys, entries, i);
    }
  }

  lemma LocalPresent(keys: Keys, entries: seq<Entry>, i: nat)
    requires i < 6 && AllOfKind(keys, entries, |entries|)
    ensures var r := AbsorbAll(keys, NO_FIELDS, entries); r.Ok? && (Present(keys, entries, i) <==> Has(r.value, i))
  {
    AbsorbAllAt(keys, NO_FIELDS, entries, i);
  }

  /** Each field then comes from the last entry under its name. */
  lemma DecodeTakesLast(keys: Keys, b: Bytes, i: nat)
    requires DecodeSpec(keys, b).Ok? && i < 6
    ensures EntriesIn(b).Some? && LastNamed(keys, EntriesIn(b).value, i).Some?
    ensures var entries := EntriesIn(b).value;
      FieldIs(DecodeSpec(keys, b).value, i, entries[LastNamed(keys, entries, i).value].value)
  {
    DecodeOkIff(keys, b);
    AbsorbAllAt(keys, NO_FIELDS, EntriesIn(b).value, i);
  }

  /** The order in which missing names are looked for. */
  ghost function Asked(keys: Keys, n: nat): Text {
    match n
    case 0 => keys.tag
    case 1 => keys.sector
    case 2 => keys.identity
    case 3 => keys.machine
    case 4 => keys.epoch
    case _ => keys.prev
  }

  ghost predicate Occurs(entries: seq<Entry>, name: Text) {
    exists j :: 0 <= j < |entries| && entries[j].key == TextString(name)
  }

  /** The first value of a wrong kind is the one reported. */
  lemma DecodeBadField(keys: Keys, b: Bytes, j: nat, i: nat)
    requires EntriesIn(b).Some? && j < |EntriesIn(b).value| && i < 6 && AllOfKind(keys, EntriesIn(b).value, j)
    requires Named(keys, EntriesIn(b).value[j], i) && !OfKind(i, EntriesIn(b).value[j].value)
    ensures DecodeSpec(keys, b) == Err(BadField(KeyAt(keys, i)))
  {
    AbsorbAllStops(keys, NO_FIELDS, EntriesIn(b).value, j, i);
  }

  /** When every value is of its kind, the first name asked for that does not occur. */
  lemma DecodeMissing(keys: Keys, b: Bytes, n: nat)
    requires EntriesIn(b).Some? && AllOfKind(keys, EntriesIn(b).value, |EntriesIn(b).value|) && n < 6
    requires !Occurs(EntriesIn(b).value, Asked(keys, n)) && forall k :: 0 <= k < n ==> Occurs(EntriesIn(b).value, Asked(keys, k))
    ensures DecodeSpec(keys, b) == Err(Missing(Asked(keys, n)))
  {
    MissingReported(keys, EntriesIn(b).value, n);
  }

  lemma MissingReported(keys: Keys, entries: seq<Entry>, n: nat)
    requires AllOfKind(keys, entries, |entries|) && n < 6 && !Occurs(entries, Asked(keys, n))
    requires forall k :: 0 <= k < n ==> Occurs(entries, Asked(keys, k))
    ensures DecodeEntries(keys, entries) == Err(Missing(Asked(keys, n)))
  {
    LocalsPresent(keys, entries);
    AskedIsPresent(keys, entries);
    var f := AbsorbAll(keys, NO_FIELDS, entries).value;
    assert forall k :: 0 <= k < n ==> Occurs(entries, Asked(keys, k));
    AllAsked(keys, entries, n);
  }

  lemma AskedIsPresent(keys: Keys, entries: seq<Entry>)
    ensures Occurs(entries, keys.epoch) <==> Present(keys, entries, 0)
    ensures Occurs(entries, keys.prev) <==> Present(keys, entries, 1)
    ensures Occurs(entries, keys.tag) <==> Present(keys, entries, 2)
    ensures Occurs(entries, keys.sector) <==> Present(keys, entries, 3)
    ensures Occurs(entries, keys.identity) <==> Present(keys, entries, 4)
    ensures Occurs(entries, keys.machine) <==> Present(keys, entries, 5)
  {
    forall i | 0 <= i < 6 ensures Occurs(entries, KeyAt(keys, i)) <==> Present(keys, entries, i) {
      OccursIsPresent(keys, entries, i);
    }
    assert KeyAt(keys, 0) == keys.epoch && KeyAt(keys, 1) == keys.prev && KeyAt(keys, 2) == keys.tag;
    assert KeyAt(keys, 3) == keys.sector && KeyAt(keys, 4) == keys.identity && KeyAt(keys, 5) == keys.machine;
  }

  lemma OccursIsPresent(keys: Keys, entries: seq<Entry>, i: nat)
    ensures Occurs(entries, KeyAt(keys, i)) <==> Present(keys, entries, i)
  {
    if Occurs(entries, KeyAt(keys, i)) {
      var j :| 0 <= j < |entries| && entries[j].key == TextString(KeyAt(keys, i));
      assert Named(keys, entries[j], i);
    }
    if Present(keys, entries, i) {
      var j :| 0 <= j < |entries| && Named(keys, entries[j], i);
      assert entries[j].key == TextString(KeyAt(keys, i));
    }
  }

  lemma AllAsked(keys: Keys, entries: seq<Entry>, n: nat)
    requires n <= 6 && forall k :: 0 <= k < n ==> Occurs(entries, Asked(keys, k))
    ensures n > 0 ==> Occurs(entries, keys.tag)
    ensures n > 1 ==> Occurs(entries, keys.sector)
    ensures n > 2 ==> Occurs(entries, keys.identity)
    ensures n > 3 ==> Occurs(entries, keys.machine)
    ensures n > 4 ==> Occurs(entries, keys.epoch)
  {
    assert n > 0 ==> Occurs(entries, Asked(keys, 0));
    assert n > 1 ==> Occurs(entries, Asked(keys, 1));
    assert n > 2 ==> Occurs(entries, Asked(keys, 2));
    assert n > 3 ==> Occurs(entries, Asked(keys, 3));
    assert n > 4 ==> Occurs(entries, Asked(keys, 4));
  }

  /** Decoding inverts encoding for every field value, whatever follows. */
  lemma DecodeInvertsEncode(keys: Keys, a: MessageAad, rest: Bytes)
    ensures DecodeSpec(keys, Encode(keys, a)) == Ok(a) && DecodeSpec(keys, Encode(keys, a) + rest) == Ok(a)
  {
    EntriesEncodable(keys, a);
    assert Carries(keys, EntriesOf(keys, a), a);
    DecodeWritten(keys, EntriesOf(keys, a), a, rest);
    DecodeWritten(keys, EntriesOf(keys, a), a, []);
    assert Encode(keys, a) + [] == Encode(keys, a);
  }

  /** No encoded AAD is the beginning of another. */
  lemma EncodingPrefixFree(keys: Keys, a: MessageAad, b: MessageAad, rest: Bytes, rest': Bytes)
    requires Encode(keys, a) + rest == Encode(keys, b) + rest'
    ensures a == b && rest == rest'
  {
    EntriesEncodable(keys, a);
    EntriesEncodable(keys, b);
    PutPrefixFree(Map(EntriesOf(keys, a)), Map(EntriesOf(keys, b)), rest, rest');
    assert EntriesOf(keys, a)[0] == EntriesOf(keys, b)[0] && EntriesOf(keys, a)[1] == EntriesOf(keys, b)[1] && EntriesOf(keys, a)[2] == EntriesOf(keys, b)[2];
    assert EntriesOf(keys, a)[3] == EntriesOf(keys, b)[3] && EntriesOf(keys, a)[4] == EntriesOf(keys, b)[4] && EntriesOf(keys, a)[5] == EntriesOf(keys, b)[5];
  }

  lemma LessAt(a: Bytes, b: Bytes, n: nat)
    requires n < |a| && n < |b| && a[..n] == b[..n] && a[n] < b[n]
    ensures LexLess(a, b)
  {
    assert a == a[..n] + a[n..] && b == b[..n] + b[n..];
    LexSplit(a[..n], a[n..], b[..n], b[n..]);
  }

  /** A name that starts with a smaller letter but is longer comes first as text, last as encoded. */
  lemma ShapedOrder(n: Names)
    requires Shaped(n)
    ensures var k := AsKeys(n); LexLess(k.prev, k.tag) && LexLess(PutValue(TextString(k.tag)), PutValue(TextString(k.prev)))
  {
    LessAt(AsText(n.prev), AsText(n.tag), 0);
    TextOrder(AsText(n.tag), AsText(n.prev));
  }

  /** The entries are written in the order of their names as text. That is not the order of
      section 4.2.1 of RFC 8949, which compares the names as encoded: the third of them,
      `schema_tag`, would come before the second, `prev_sector_id`. */
  lemma KeysNotInCoreOrder()
    ensures var k := SourceKeys();
      && LexLess(k.prev, k.tag)
      && LexLess(PutValue(TextString(k.tag)), PutValue(TextString(k.prev)))
  {
    NamesShaped();
    ShapedOrder(FIELD_NAMES);
  }

  ghost predicate SourceLengths(k: KeyNames) {
    |k.epoch| == 5 && |k.prev| == 14 && |k.tag| == 10 && |k.sector| == 9 && |k.identity| == 15 && |k.machine| == 14
  }

  lemma SourceLengthsHold()
    ensures SourceLengths(SourceKeys())
  {
    NamesShaped();
  }

  /** One entry as written: the name behind its length, then the value. */
  lemma EntryForm(name: Text, v: Value, x: Bytes)
    requires |name| < 24 && Encodable(v) && PutValue(v) == x
    ensures Encodable(TextString(name)) && PutEntry(Entry(TextString(name), v)) == [0x60 + |name|] + name + x
  {
    ShortForms(0, [], name, [], [], Null);
  }

  lemma SixEntries(e: seq<Entry>, p0: Bytes, p1: Bytes, p2: Bytes, p3: Bytes, p4: Bytes, p5: Bytes)
    requires |e| == 6 && Encodable(Map(e)) && PutEntry(e[0]) == p0 && PutEntry(e[1]) == p1 && PutEntry(e[2]) == p2
    requires PutEntry(e[3]) == p3 && PutEntry(e[4]) == p4 && PutEntry(e[5]) == p5
    ensures PutValue(Map(e)) == [0xa6] + (p0 + (p1 + (p2 + (p3 + (p4 + p5)))))
  {
    ShortForms(0, [], [], [], e, Null);
    assert e[0..] == e && e[6..] == [];
    EntriesFrom(e, 0);
    EntriesFrom(e, 1);
    EntriesFrom(e, 2);
    EntriesFrom(e, 3);
    EntriesFrom(e, 4);
    EntriesFrom(e, 5);
    assert p5 + [] == p5;
  }

  lemma EntriesFrom(e: seq<Entry>, i: nat)
    requires i < |e| && Encodable(Map(e))
    ensures PutEntries(e[i..]) == PutEntry(e[i]) + PutEntries(e[i + 1..])
  {
    EntriesUnfold(e[i..]);
    assert e[i..][1..] == e[i + 1..];
  }

  /** A map of six entries, each a name behind its length and a value, ids behind theirs. */
  ghost function LaidOut(keys: Keys, epoch: Bytes, prev: Bytes, tag: Bytes, sector: Id16, identity: Id16, machine: Id16): Bytes {
    [0xa6]
    + ([0x65] + keys.epoch + epoch
    + ([0x6e] + keys.prev + prev
    + ([0x6a] + keys.tag + tag
    + ([0x69] + keys.sector + ([0x50] + sector)
    + ([0x6f] + keys.identity + ([0x50] + identity)
    + ([0x6e] + keys.machine + ([0x50] + machine)))))))
  }

  lemma Layout(keys: Keys, a: MessageAad) returns (epoch: Bytes, prev: Bytes, tag: Bytes)
    requires SourceLengths(keys)
    ensures epoch == PutValue(Integer(a.epoch)) && tag == PutValue(Integer(a.schemaTag))
    ensures prev == if a.prevSectorId.Some? then [0x50] + a.prevSectorId.value else [0xf6]
    ensures Encode(keys, a) == LaidOut(keys, epoch, prev, tag, a.sectorId, a.senderIdentity, a.senderMachine)
  {
    epoch, tag := PutValue(Integer(a.epoch)), PutValue(Integer(a.schemaTag));
    prev := PrevForm(a.prevSectorId);
    EntriesEncodable(keys, a);
    EntryForm(keys.epoch, Integer(a.epoch), epoch);
    EntryForm(keys.prev, PrevValue(a.prevSectorId), prev);
    EntryForm(keys.tag, Integer(a.schemaTag), tag);
    IdForm(a.sectorId);
    EntryForm(keys.sector, ByteString(a.sectorId), [0x50] + a.sectorId);
    IdForm(a.senderIdentity);
    EntryForm(keys.identity, ByteString(a.senderIdentity), [0x50] + a.senderIdentity);
    IdForm(a.senderMachine);
    EntryForm(keys.machine, ByteString(a.senderMachine), [0x50] + a.senderMachine);
    SixEntries(EntriesOf(keys, a), [0x65] + keys.epoch + epoch, [0x6e] + keys.prev + prev, [0x6a] + keys.tag + tag,
               [0x69] + keys.sector + ([0x50] + a.sectorId), [0x6f] + keys.identity + ([0x50] + a.senderIdentity),
               [0x6e] + keys.machine + ([0x50] + a.senderMachine));
  }

  lemma IdForm(id: Id16)
    ensures PutValue(ByteString(id)) == [0x50] + id
  {
    ShortForms(0, id, [], [], [], Null);
  }

  lemma PrevForm(prev: Option<Id16>) returns (x: Bytes)
    ensures Encodable(PrevValue(prev)) && x == PutValue(PrevValue(prev))
    ensures x == if prev.Some? then [0x50] + prev.value else [0xf6]
  {
    x := PutValue(PrevValue(prev));
    if prev.Some? {
      IdForm(prev.value);
    }
  }
}
