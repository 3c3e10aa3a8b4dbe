/** The bounded outbox: entries keyed by sector id, handed out by due time. */
module Outbox {
  import opened ByteStrings
  import opened Wrappers
  import opened OrderedStore
  import opened StableSorting

  datatype OutboxEntry = OutboxEntry(
    sectorId: Id16,
    payload: Bytes,
    attemptCount: U8,
    nextAttemptMs: U64,
    createdAtMs: U64)

  datatype OutboxError = OutboxFull | SectorNotFound(id: Id16)

  type Queue = map<Bytes, OutboxEntry>

  ghost predicate WellKeyed(data: Queue) {
    forall k :: k in data ==> k == data[k].sectorId
  }

  predicate ByTime(a: OutboxEntry, b: OutboxEntry) {
    a.nextAttemptMs <= b.nextAttemptMs
  }

  function DueOf(s: seq<OutboxEntry>, now: U64): seq<OutboxEntry> {
    if s == [] then []
    else if s[0].nextAttemptMs <= now then [s[0]] + DueOf(s[1..], now)
    else DueOf(s[1..], now)
  }

  predicate Earlier(a: OutboxEntry, b: OutboxEntry) {
    a.nextAttemptMs < b.nextAttemptMs || (a.nextAttemptMs == b.nextAttemptMs && LexLess(a.sectorId, b.sectorId))
  }

  ghost predicate StrictlyEarlier(s: seq<OutboxEntry>) {
    forall i, j :: 0 <= i < j < |s| ==> Earlier(s[i], s[j])
  }

  ghost predicate AscendingIds(s: seq<OutboxEntry>) {
    forall i, j :: 0 <= i < j < |s| ==> LexLess(s[i].sectorId, s[j].sectorId)
  }

  /** `due` lists exactly the entries due by `now`, earliest first, ties by sector id. */
  ghost predicate IsDue(data: Queue, now: U64, due: seq<OutboxEntry>) {
    && StrictlyEarlier(due)
    && forall e: OutboxEntry :: e in due <==> e.sectorId in data && data[e.sectorId] == e && e.nextAttemptMs <= now
  }

  lemma {:induction false} DueMembers(s: seq<OutboxEntry>, now: U64)
    ensures forall e :: e in DueOf(s, now) <==> e in s && e.nextAttemptMs <= now
  {
    if s == [] {
    } else {
      DueMembers(s[1..], now);
      assert s == [s[0]] + s[1..];
    }
  }

  lemma {:induction false} DueAscends(s: seq<OutboxEntry>, now: U64)
    requires AscendingIds(s)
    ensures AscendingIds(DueOf(s, now))
  {
    if s == [] {
    } else {
      DueAscends(s[1..], now);
      DueMembers(s[1..], now);
      var rest := DueOf(s[1..], now);
      forall i | 0 <= i < |rest| ensures LexLess(s[0].sectorId, rest[i].sectorId) {
        assert rest[i] in rest;
        var j :| 0 <= j < |s[1..]| && s[1..][j] == rest[i];
        assert s[j + 1] == rest[i];
      }
    }
  }

  /** Putting the entry with the least id in by time alone keeps the (time, id) order. */
  lemma {:induction false} InsertEarliestId(x: OutboxEntry, s: seq<OutboxEntry>)
    requires StrictlyEarlier(s) && forall i :: 0 <= i < |s| ==> LexLess(x.sectorId, s[i].sectorId)
    ensures StrictlyEarlier(Insert(ByTime, x, s))
    ensures forall e :: e in Insert(ByTime, x, s) <==> e == x || e in s
  {
    if s == [] || ByTime(x, s[0]) {
    } else {
      InsertEarliestId(x, s[1..]);
      var r := Insert(ByTime, x, s[1..]);
      assert s == [s[0]] + s[1..];
      forall i | 0 <= i < |r| ensures Earlier(s[0], r[i]) {
        assert r[i] in r;
        if r[i] != x {
          var j :| 0 <= j < |s[1..]| && s[1..][j] == r[i];
          assert s[j + 1] == r[i];
        }
      }
    }
  }

  lemma {:induction false} SortDue(s: seq<OutboxEntry>)
    requires AscendingIds(s)
    ensures StrictlyEarlier(Sort(ByTime, s))
    ensures forall e :: e in Sort(ByTime, s) <==> e in s
  {
    if s == [] {
    } else {
      var rest := Sort(ByTime, s[1..]);
      SortDue(s[1..]);
      forall i | 0 <= i < |rest| ensures LexLess(s[0].sectorId, rest[i].sectorId) {
        assert rest[i] in rest;
        var j :| 0 <= j < |s[1..]| && s[1..][j] == rest[i];
        assert s[j + 1] == rest[i];
      }
      InsertEarliestId(s[0], rest);
      assert s == [s[0]] + s[1..];
    }
  }

  lemma {:induction false} DueListUnique(a: seq<OutboxEntry>, b: seq<OutboxEntry>)
    requires StrictlyEarlier(a) && StrictlyEarlier(b)
    requires forall e :: e in a <==> e in b
    ensures a == b
  {
    assert a != [] ==> a[0] in a;
    assert b != [] ==> b[0] in b;
    if a == [] {
    } else {
      assert a[0] in b && b[0] in a;
      LexTotal(a[0].sectorId, b[0].sectorId);
      assert a[0] == b[0];
      forall e ensures e in a[1..] <==> e in b[1..] {
        TailOf(a, e);
        TailOf(b, e);
      }
      DueListUnique(a[1..], b[1..]);
      assert a == [a[0]] + a[1..] && b == [b[0]] + b[1..];
    }
  }

  lemma TailOf(a: seq<OutboxEntry>, e: OutboxEntry)
    requires StrictlyEarlier(a) && a != []
    ensures e in a[1..] <==> e in a && e != a[0]
  {
    LexTotal(e.sectorId, e.sectorId);
    assert forall i :: 0 <= i < |a[1..]| ==> a[1..][i] == a[i + 1];
  }

  /** Waiting longer only appends: what is due earlier is a prefix of what is due later. */
  lemma DueIsPrefix(data: Queue, t1: U64, t2: U64, d1: seq<OutboxEntry>, d2: seq<OutboxEntry>)
    requires t1 <= t2 && IsDue(data, t1, d1) && IsDue(data, t2, d2)
    ensures d1 <= d2
  {
    var j := CutAt(d2, t1);
    forall e ensures e in d2[..j] <==> e in d1 {
      if e in d1 {
        assert e in d2;
        var i :| 0 <= i < |d2| && d2[i] == e;
        assert i < j;
        assert e == d2[..j][i];
      }
    }
    DueListUnique(d2[..j], d1);
  }

  lemma {:induction false} CutAt(s: seq<OutboxEntry>, t: U64) returns (j: nat)
    requires StrictlyEarlier(s)
    ensures j <= |s| && (forall i :: 0 <= i < |s| ==> (s[i].nextAttemptMs <= t <==> i < j))
  {
    j := 0;
    while j < |s| && s[j].nextAttemptMs <= t
      invariant 0 <= j <= |s|
      invariant forall i :: 0 <= i < j ==> s[i].nextAttemptMs <= t
    {
      j := j + 1;
    }
    if j < |s| {
      forall i | j <= i < |s| ensures s[i].nextAttemptMs > t {
        if i > j { assert Earlier(s[j], s[i]); }
      }
    }
  }

  ghost function Enqueued(data: Queue, capacity: nat, e: OutboxEntry): Queue {
    if e.sectorId in data || |data| >= capacity then data else data[e.sectorId := e]
  }

  function Saturated(n: U8): U8 {
    if n < 255 then n + 1 else 255
  }

  ghost function Attempted(data: Queue, id: Id16, next: U64): Queue {
    if id in data then data[id := data[id].(attemptCount := Saturated(data[id].attemptCount), nextAttemptMs := next)] else data
  }

  /** One entry counts one attempt more, 255 at most, and is due at `next`; nothing else changes. */
  ghost predicate AttemptedOnce(before: Queue, after: Queue, id: Id16, next: U64)
    requires id in before
  {
    var e := before[id];
    && after.Keys == before.Keys && (forall k :: k in before && k != id ==> after[k] == before[k])
    && after[id].sectorId == e.sectorId && after[id].payload == e.payload && after[id].createdAtMs == e.createdAtMs
    && after[id].nextAttemptMs == next
    && (e.attemptCount == 255 ==> after[id].attemptCount == 255) && (e.attemptCount < 255 ==> after[id].attemptCount == e.attemptCount + 1)
  }

  datatype Op = Enqueue(entry: OutboxEntry) | MarkAttempted(id: Id16, next: U64) | Remove(id: Id16)

  ghost function Run(data: Queue, capacity: nat, ops: seq<Op>): Queue {
    if ops == [] then data else
      var before := Run(data, capacity, ops[..|ops| - 1]);
      match ops[|ops| - 1]
      case Enqueue(e) => Enqueued(before, capacity, e)
      case MarkAttempted(id, next) => Attempted(before, id, next)
      case Remove(id) => before - {id}
  }

  /** From at most `capacity` entries no run exceeds it, and every entry stays under its own id. */
  lemma {:induction false} RunBounded(data: Queue, capacity: nat, ops: seq<Op>)
    requires WellKeyed(data) && |data| <= capacity
    ensures WellKeyed(Run(data, capacity, ops)) && |Run(data, capacity, ops)| <= capacity
  {
    if ops == [] {
    } else {
      RunBounded(data, capacity, ops[..|ops| - 1]);
      var before := Run(data, capacity, ops[..|ops| - 1]);
      match ops[|ops| - 1]
      case Enqueue(e) =>
      case MarkAttempted(id, _) =>
        assert id in before ==> Attempted(before, id, ops[|ops| - 1].next).Keys == before.Keys;
      case Remove(id) =>
        RemovalShrinks(before, id);
    }
  }

  lemma RemovalShrinks(data: Queue, id: Bytes)
    ensures |data - {id}| <= |data|
  {
    var after := data - {id};
    assert data.Keys == after.Keys + if id in data then {id} else {};
  }

  class Outbox {
    const db: ColumnFamily<OutboxEntry>
    const capacity: nat

    constructor WithCapacity(db: ColumnFamily<OutboxEntry>, capacity: nat)
      ensures this.db == db && this.capacity == capacity
    {
      this.db := db;
      this.capacity := capacity;
    }

    method Count() returns (n: nat)
      ensures n == |db.data|
    {
      var keys := db.IterFrom([]);
      AllKeys(db.data.Keys);
      n := 0;
      for i := 0 to |keys|
        invariant n == i
      {
        n := n + 1;
      }
    }

    /** Queues an entry unless its id is present; a new one is refused at capacity. */
    method Enqueue(entry: OutboxEntry) returns (r: Result<(), OutboxError>)
      requires WellKeyed(db.data)
      modifies db
      ensures WellKeyed(db.data) && db.data == Enqueued(old(db.data), capacity, entry)
      ensures r == if entry.sectorId in old(db.data) || |old(db.data)| < capacity then Ok(()) else Err(OutboxFull)
      ensures r.Ok? && entry.sectorId !in old(db.data) ==> db.data == old(db.data)[entry.sectorId := entry]
      ensures r.Err? || entry.sectorId in old(db.data) ==> db.data == old(db.data)
    {
      var found := db.Get(entry.sectorId);
      if found.Some? {
        return Ok(());
      }
      var count := Count();
      if count >= capacity {
        return Err(OutboxFull);
      }
      db.Put(entry.sectorId, entry);
      return Ok(());
    }

    method ScanAll() returns (entries: seq<OutboxEntry>)
      requires WellKeyed(db.data)
      ensures AscendingIds(entries)
      ensures forall e: OutboxEntry :: e in entries <==> e.sectorId in db.data && db.data[e.sectorId] == e
    {
      var keys := db.IterFrom([]);
      AllKeys(db.data.Keys);
      entries := [];
      var i := 0;
      while i < |keys|
        invariant 0 <= i == |entries| <= |keys|
        invariant forall j :: 0 <= j < i ==> entries[j] == db.data[keys[j]]
      {
        entries := entries + [db.data[keys[i]]];
        i := i + 1;
      }
      forall e: OutboxEntry | e.sectorId in db.data && db.data[e.sectorId] == e ensures e in entries {
        assert e.sectorId in keys;
        var j :| 0 <= j < |keys| && keys[j] == e.sectorId;
        assert entries[j] == e;
      }
    }

    /** Everything due by `now`, earliest first. */
    method DequeueDue(now: U64) returns (due: seq<OutboxEntry>)
      requires WellKeyed(db.data)
      ensures IsDue(db.data, now, due)
    {
      var all := ScanAll();
      due := DueOf(all, now);
      DueMembers(all, now);
      DueAscends(all, now);
      SortDue(due);
      due := Sort(ByTime, due);
    }

    method MarkAttempted(id: Id16, next: U64) returns (r: Result<(), OutboxError>)
      requires WellKeyed(db.data)
      modifies db
      ensures WellKeyed(db.data) && db.data == Attempted(old(db.data), id, next)
      ensures r == if id in old(db.data) then Ok(()) else Err(SectorNotFound(id))
      ensures id in old(db.data) ==> AttemptedOnce(old(db.data), db.data, id, next)
      ensures id !in old(db.data) ==> db.data == old(db.data)
    {
      var found := db.Get(id);
      if found.None? {
        return Err(SectorNotFound(id));
      }
      var entry := found.value;
      entry := entry.(attemptCount := Saturated(entry.attemptCount));
      entry := entry.(nextAttemptMs := next);
      db.Put(id, entry);
      return Ok(());
    }

    method Remove(id: Id16)
      requires WellKeyed(db.data)
      modifies db
      ensures WellKeyed(db.data) && db.data == old(db.data) - {id}
    {
      db.Delete(id);
    }
  }

  lemma AllKeys(keys: set<Bytes>)
    ensures KeysFrom(keys, []) == SortedKeys(keys)
    ensures Ascending(KeysFrom(keys, [])) && |KeysFrom(keys, [])| == |keys|
    ensures forall k :: k in KeysFrom(keys, []) <==> k in keys
  {
    assert (set k | k in keys && LexLeq([], k)) == keys;
    SortedKeysSorts(keys);
  }
}
