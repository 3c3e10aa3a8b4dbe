/** The inbound loop: deduplicate, store as delivered, queue a receipt. */
module Receive {
  import opened ByteStrings
  import opened Wrappers
  import opened InboxIndex
  import opened Dedupe
  import Dm
  import DmService
  import Outbox

  datatype DmSectorPayload = DmSectorPayload(
    messageId: Id16,
    conversationId: ConversationId,
    senderIdentity: Id16,
    senderMachine: Id16,
    text: Bytes,
    createdAtMs: U64)

  /** One item of the subscription, with the clock when it is stored, and the clock and the fresh id
      when its receipt is queued. */
  datatype Arrival = Arrival(sector: Bytes, now: U64, queuedAt: U64, receiptId: Id16)

  /** The foreign parts: the sector hash cut to 16 bytes, the payload codec, the id derivation
      and the contact lookup. */
  datatype Outside = Outside(
    hash: Bytes -> Id16,
    decode: Bytes -> Option<DmSectorPayload>,
    derive: Id16 -> ConversationId,
    isContact: Id16 -> bool,
    receipt: (DmSectorPayload, U64) -> Bytes)

  function DeliveredMessage(p: DmSectorPayload, now: U64): Dm.Message {
    Dm.Message(p.messageId, p.conversationId, p.senderIdentity, p.senderMachine, p.text, Dm.Delivered, p.createdAtMs, now)
  }

  function ReceiptEntry(o: Outside, p: DmSectorPayload, a: Arrival): Outbox.OutboxEntry {
    Outbox.OutboxEntry(a.receiptId, o.receipt(p, a.queuedAt), 0, a.queuedAt, a.queuedAt)
  }

  /** The payload's message, delivered at `now`. */
  ghost predicate IsDelivery(r: Dm.ChainRecord, p: DmSectorPayload, now: U64) {
    && r.MessageRecord? && r.message.status == Dm.Delivered && r.message.statusUpdatedAtMs == now
    && r.message.id == p.messageId && r.message.conversationId == p.conversationId
    && r.message.senderIdentity == p.senderIdentity && r.message.senderMachine == p.senderMachine
    && r.message.text == p.text && r.message.createdAtMs == p.createdAtMs
  }

  ghost function Opened(data: Dm.Chains, o: Outside, peer: Id16): Dm.Chains {
    var key := Dm.ConversationKey(o.derive(peer));
    if o.isContact(peer) && key !in data
    then data[key := Dm.ConversationRecord(Dm.Conversation(o.derive(peer), peer, None))] else data
  }

  ghost function Stored(data: Dm.Chains, o: Outside, a: Arrival): Dm.Chains {
    var p := o.decode(a.sector);
    if p.None? then data
    else Opened(data, o, p.value.senderIdentity)[
      Dm.MessageKey(p.value.conversationId, p.value.messageId) := Dm.MessageRecord(DeliveredMessage(p.value, a.now))]
  }

  ghost function Queued(queue: Outbox.Queue, capacity: nat, o: Outside, a: Arrival): Outbox.Queue {
    var p := o.decode(a.sector);
    if p.None? then queue else Outbox.Enqueued(queue, capacity, ReceiptEntry(o, p.value, a))
  }

  ghost function Ids(o: Outside, arrivals: seq<Arrival>): seq<Id16> {
    seq<Id16>(|arrivals|, i requires 0 <= i < |arrivals| => o.hash(arrivals[i].sector))
  }

  /** The arrivals that get past a cache on which `history` has been marked. */
  ghost function AcceptedArrivals(history: seq<Id16>, o: Outside, arrivals: seq<Arrival>, capacity: nat): seq<Arrival> {
    if arrivals == [] then [] else
      var before, a := AcceptedArrivals(history, o, arrivals[..|arrivals| - 1], capacity), arrivals[|arrivals| - 1];
      if InWindow(history + Ids(o, before), capacity, o.hash(a.sector)) then before else before + [a]
  }

  ghost function StoredAll(data: Dm.Chains, o: Outside, arrivals: seq<Arrival>): Dm.Chains {
    if arrivals == [] then data
    else Stored(StoredAll(data, o, arrivals[..|arrivals| - 1]), o, arrivals[|arrivals| - 1])
  }

  ghost function QueuedAll(queue: Outbox.Queue, capacity: nat, o: Outside, arrivals: seq<Arrival>): Outbox.Queue {
    if arrivals == [] then queue
    else Queued(QueuedAll(queue, capacity, o, arrivals[..|arrivals| - 1]), capacity, o, arrivals[|arrivals| - 1])
  }

  /** The accepted arrivals carry exactly the ids the deduplication analysis speaks of. */
  lemma {:induction false} AcceptedIds(history: seq<Id16>, o: Outside, arrivals: seq<Arrival>, capacity: nat)
    ensures Ids(o, AcceptedArrivals(history, o, arrivals, capacity)) == Accepted(history, Ids(o, arrivals), capacity)
  {
    if arrivals == [] {
    } else {
      var n := |arrivals| - 1;
      AcceptedIds(history, o, arrivals[..n], capacity);
      IdsFront(o, arrivals);
      IdsAppend(o, AcceptedArrivals(history, o, arrivals[..n], capacity), arrivals[n]);
    }
  }

  lemma IdsFront(o: Outside, arrivals: seq<Arrival>)
    requires arrivals != []
    ensures var n, ids := |arrivals| - 1, Ids(o, arrivals);
      |ids| == n + 1 && ids[..n] == Ids(o, arrivals[..n]) && ids[n] == o.hash(arrivals[n].sector)
  {
  }

  lemma IdsAppend(o: Outside, arrivals: seq<Arrival>, a: Arrival)
    ensures Ids(o, arrivals + [a]) == Ids(o, arrivals) + [o.hash(a.sector)]
  {
  }

  /** The sender chooses both ids, so any later arrival may name the same key. */
  ghost predicate Names(o: Outside, a: Arrival, key: Bytes) {
    var p := o.decode(a.sector);
    p.Some? && Dm.MessageKey(p.value.conversationId, p.value.messageId) == key
  }

  ghost function OwnKey(o: Outside, a: Arrival): Bytes
    requires o.decode(a.sector).Some?
  {
    var p := o.decode(a.sector).value;
    Dm.MessageKey(p.conversationId, p.messageId)
  }

  ghost function OwnMessage(o: Outside, a: Arrival): Dm.Message
    requires o.decode(a.sector).Some?
  {
    DeliveredMessage(o.decode(a.sector).value, a.now)
  }

  /** The last arrival that names the key. */
  ghost function LastNaming(o: Outside, arrivals: seq<Arrival>, key: Bytes): (last: Option<nat>)
    ensures last.Some? ==> last.value < |arrivals| && Names(o, arrivals[last.value], key)
    ensures forall j :: (if last.Some? then last.value + 1 else 0) <= j < |arrivals| ==> !Names(o, arrivals[j], key)
  {
    if arrivals == [] then None
    else if Names(o, arrivals[|arrivals| - 1], key) then Some(|arrivals| - 1)
    else LastNaming(o, arrivals[..|arrivals| - 1], key)
  }

  /** What a message key holds: the delivered message of the last accepted arrival that names it,
      or what it held before. */
  lemma {:induction false} LastNamingWins(data: Dm.Chains, o: Outside, arrivals: seq<Arrival>, c: ConversationId, id: Id16)
    ensures var key := Dm.MessageKey(c, id);
      var after, last := StoredAll(data, o, arrivals), LastNaming(o, arrivals, key);
      if last.Some? then
        && key in after && after[key] == Dm.MessageRecord(OwnMessage(o, arrivals[last.value]))
        && IsDelivery(after[key], o.decode(arrivals[last.value].sector).value, arrivals[last.value].now)
      else (key in after <==> key in data) && (key in data ==> after[key] == data[key])
  {
    if arrivals == [] {
    } else {
      var n := |arrivals| - 1;
      LastNamingWins(data, o, arrivals[..n], c, id);
      var q := o.decode(arrivals[n].sector);
      if q.Some? {
        ConversationKeyIsNotMessage(o.derive(q.value.senderIdentity), c, id);
      }
    }
  }

  /** The message an accepted arrival brought is in the store at the end if and only if the last
      arrival naming its key brought the same. */
  lemma {:induction false} OwnMessageStaysIff(data: Dm.Chains, o: Outside, arrivals: seq<Arrival>, i: nat)
    requires i < |arrivals| && o.decode(arrivals[i].sector).Some?
    ensures var key := OwnKey(o, arrivals[i]);
      var after, last := StoredAll(data, o, arrivals), LastNaming(o, arrivals, key);
      && last.Some? && last.value >= i && key in after
      && (after[key] == Dm.MessageRecord(OwnMessage(o, arrivals[i])) <==> OwnMessage(o, arrivals[last.value]) == OwnMessage(o, arrivals[i]))
  {
    var p := o.decode(arrivals[i].sector).value;
    assert Names(o, arrivals[i], OwnKey(o, arrivals[i]));
    LastNamingWins(data, o, arrivals, p.conversationId, p.messageId);
  }

  /** A message stored before is unchanged at the end if and only if no arrival names its key or
      the last one that does brought the same. */
  lemma {:induction false} StoredStaysIff(data: Dm.Chains, o: Outside, arrivals: seq<Arrival>, c: ConversationId, id: Id16)
    requires Dm.MessageKey(c, id) in data
    ensures var key := Dm.MessageKey(c, id);
      var after, last := StoredAll(data, o, arrivals), LastNaming(o, arrivals, key);
      && key in after
      && (after[key] == data[key] <==> last.None? || data[key] == Dm.MessageRecord(OwnMessage(o, arrivals[last.value])))
  {
    LastNamingWins(data, o, arrivals, c, id);
  }

  lemma {:induction false} StoredKeyed(data: Dm.Chains, o: Outside, arrivals: seq<Arrival>)
    requires Dm.WellKeyed(data)
    ensures Dm.WellKeyed(StoredAll(data, o, arrivals))
  {
    if arrivals == [] {
    } else {
      StoredKeyed(data, o, arrivals[..|arrivals| - 1]);
    }
  }

  /** Of two arrivals with the same ids the first's message is nowhere in the store afterwards. */
  lemma NamesakeReplaces(data: Dm.Chains, o: Outside, a: Arrival, b: Arrival)
    requires Dm.WellKeyed(data) && o.decode(a.sector).Some? && o.decode(b.sector).Some?
    requires OwnKey(o, a) == OwnKey(o, b) && OwnMessage(o, a) != OwnMessage(o, b)
    ensures Dm.MessageRecord(OwnMessage(o, a)) !in StoredAll(data, o, [a, b]).Values
  {
    var after := StoredAll(data, o, [a, b]);
    OwnMessageStaysIff(data, o, [a, b], 1);
    StoredKeyed(data, o, [a, b]);
  }

  lemma ConversationKeyIsNotMessage(c: ConversationId, d: ConversationId, id: Id16)
    ensures Dm.ConversationKey(c) != Dm.MessageKey(d, id)
  {
    assert |Dm.ConversationKey(c)| == 35 && |Dm.MessageKey(d, id)| == 55;
  }

  /** No key is lost, and a conversation that is open keeps its record. */
  lemma {:induction false} StoredGrows(data: Dm.Chains, o: Outside, arrivals: seq<Arrival>, c: ConversationId)
    ensures data.Keys <= StoredAll(data, o, arrivals).Keys
    ensures var key := Dm.ConversationKey(c); key in data ==> StoredAll(data, o, arrivals)[key] == data[key]
  {
    if arrivals == [] {
    } else {
      var n := |arrivals| - 1;
      StoredGrows(data, o, arrivals[..n], c);
      var q := o.decode(arrivals[n].sector);
      if q.Some? {
        ConversationKeyIsNotMessage(c, q.value.conversationId, q.value.messageId);
      }
    }
  }

  ghost function Decodable(o: Outside, arrivals: seq<Arrival>): nat {
    if arrivals == [] then 0 else
      Decodable(o, arrivals[..|arrivals| - 1]) + if o.decode(arrivals[|arrivals| - 1].sector).Some? then 1 else 0
  }

  ghost predicate FreshReceipts(queue: Outbox.Queue, arrivals: seq<Arrival>) {
    && (forall i :: 0 <= i < |arrivals| ==> arrivals[i].receiptId !in queue)
    && (forall i, j :: 0 <= i < j < |arrivals| ==> arrivals[i].receiptId != arrivals[j].receiptId)
  }

  lemma {:induction false} QueuedAreReceipts(queue: Outbox.Queue, capacity: nat, o: Outside, arrivals: seq<Arrival>)
    ensures forall k :: k in QueuedAll(queue, capacity, o, arrivals) ==>
      k in queue || exists i :: 0 <= i < |arrivals| && k == arrivals[i].receiptId
  {
    if arrivals == [] {
    } else {
      var n := |arrivals| - 1;
      QueuedAreReceipts(queue, capacity, o, arrivals[..n]);
      var before := QueuedAll(queue, capacity, o, arrivals[..n]);
      forall k | k in QueuedAll(queue, capacity, o, arrivals)
        ensures k in queue || exists i :: 0 <= i < |arrivals| && k == arrivals[i].receiptId
      {
        if k in before && k !in queue {
          var i :| 0 <= i < n && k == arrivals[..n][i].receiptId;
          assert k == arrivals[i].receiptId;
        } else if k !in before {
          assert k == arrivals[n].receiptId;
        }
      }
    }
  }

  /** One receipt is queued for each accepted decodable arrival, until the outbox is full. */
  lemma {:induction false} OneReceiptEach(queue: Outbox.Queue, capacity: nat, o: Outside, arrivals: seq<Arrival>)
    requires |queue| <= capacity && FreshReceipts(queue, arrivals)
    ensures |QueuedAll(queue, capacity, o, arrivals)|
         == if |queue| + Decodable(o, arrivals) <= capacity then |queue| + Decodable(o, arrivals) else capacity
  {
    if arrivals == [] {
    } else {
      LastIsFresh(queue, capacity, o, arrivals);
      OneReceiptEach(queue, capacity, o, arrivals[..|arrivals| - 1]);
    }
  }

  lemma LastIsFresh(queue: Outbox.Queue, capacity: nat, o: Outside, arrivals: seq<Arrival>)
    requires arrivals != [] && FreshReceipts(queue, arrivals)
    ensures var n := |arrivals| - 1;
      FreshReceipts(queue, arrivals[..n]) && arrivals[n].receiptId !in QueuedAll(queue, capacity, o, arrivals[..n])
  {
    var n := |arrivals| - 1;
    assert forall i :: 0 <= i < n ==> arrivals[..n][i] == arrivals[i];
    QueuedAreReceipts(queue, capacity, o, arrivals[..n]);
  }

  /** The conversation of a known sender is there afterwards, opened empty if it was not; no other
      key but the message's is touched. */
  ghost predicate Leaves(before: Dm.Chains, after: Dm.Chains, o: Outside, p: DmSectorPayload) {
    var c, key := o.derive(p.senderIdentity), Dm.MessageKey(p.conversationId, p.messageId);
    && (o.isContact(p.senderIdentity) && Dm.ConversationKey(c) !in before ==>
         Dm.ConversationKey(c) in after && after[Dm.ConversationKey(c)] == Dm.ConversationRecord(Dm.Conversation(c, p.senderIdentity, None)))
    && (forall k :: k in after && k != key ==> k in before || (k == Dm.ConversationKey(c) && o.isContact(p.senderIdentity)))
    && (forall k :: k in before ==> k in after && (k == key || after[k] == before[k]))
  }

  /** The receipt is queued under its own id, due at once and not yet attempted. */
  ghost predicate Queues(before: Outbox.Queue, after: Outbox.Queue, capacity: nat, o: Outside, p: DmSectorPayload, a: Arrival) {
    if a.receiptId in before || |before| >= capacity then after == before
    else
      && after.Keys == before.Keys + {a.receiptId} && (forall k :: k in before ==> after[k] == before[k])
      && var e := after[a.receiptId];
        && e.sectorId == a.receiptId && e.payload == o.receipt(p, a.queuedAt)
        && e.attemptCount == 0 && e.nextAttemptMs == a.queuedAt && e.createdAtMs == a.queuedAt
  }

  /** What one sector leaves behind, said outright. */
  lemma StoredOutright(data: Dm.Chains, o: Outside, a: Arrival)
    requires o.decode(a.sector).Some?
    ensures var p, after := o.decode(a.sector).value, Stored(data, o, a);
      && Dm.MessageKey(p.conversationId, p.messageId) in after
      && IsDelivery(after[Dm.MessageKey(p.conversationId, p.messageId)], p, a.now) && Leaves(data, after, o, p)
  {
    var p := o.decode(a.sector).value;
    ConversationKeyIsNotMessage(o.derive(p.senderIdentity), p.conversationId, p.messageId);
  }

  class DmReceiver {
    const service: DmService.DmService
    const outbox: Outbox.Outbox
    const dedupe: DedupeCache

    constructor (service: DmService.DmService, outbox: Outbox.Outbox, dedupe: DedupeCache)
      ensures this.service == service && this.outbox == outbox && this.dedupe == dedupe
    {
      this.service := service;
      this.outbox := outbox;
      this.dedupe := dedupe;
    }

    ghost predicate Valid()
      reads service.db, outbox.db
    {
      && Dm.WellKeyed(service.db.data)
      && Outbox.WellKeyed(outbox.db.data)
    }

    /** Decodes and stores one sector and queues its receipt; a full outbox is reported only
        after the message is stored. */
    method ProcessInboundDm(o: Outside, a: Arrival) returns (r: Option<Id16>)
      requires Valid()
      modifies service.db, outbox.db
      ensures Valid()
      ensures service.db.data == Stored(old(service.db.data), o, a)
      ensures outbox.db.data == Queued(old(outbox.db.data), outbox.capacity, o, a)
      ensures o.decode(a.sector).None? ==> service.db.data == old(service.db.data) && outbox.db.data == old(outbox.db.data)
      ensures o.decode(a.sector).Some? ==>
        var p := o.decode(a.sector).value;
        && Dm.MessageKey(p.conversationId, p.messageId) in service.db.data
        && IsDelivery(service.db.data[Dm.MessageKey(p.conversationId, p.messageId)], p, a.now)
        && Leaves(old(service.db.data), service.db.data, o, p)
        && Queues(old(outbox.db.data), outbox.db.data, outbox.capacity, o, p, a)
      ensures r == if o.decode(a.sector).Some? && (a.receiptId in old(outbox.db.data) || |old(outbox.db.data)| < outbox.capacity)
        then Some(o.decode(a.sector).value.messageId) else None
    {
      var decoded := o.decode(a.sector);
      if decoded.None? {
        return None;
      }
      var p := decoded.value;
      StoredOutright(service.db.data, o, a);
      var _ := service.OpenConversation(p.senderIdentity, o.isContact(p.senderIdentity), o.derive(p.senderIdentity));
      service.StoreMessage(DeliveredMessage(p, a.now));
      var queued := outbox.Enqueue(ReceiptEntry(o, p, a));
      if queued.Err? {
        return None;
      }
      return Some(p.messageId);
    }

    /** The loop over whatever the subscription delivers before it ends or fails. */
    method ReceiveLoop(o: Outside, arrivals: seq<Arrival>)
      requires Valid() && dedupe.Valid()
      modifies service.db, outbox.db, dedupe
      ensures Valid() && dedupe.Valid()
      ensures var accepted := AcceptedArrivals(old(dedupe.history), o, arrivals, dedupe.capacity);
        && dedupe.history == old(dedupe.history) + Ids(o, accepted)
        && service.db.data == StoredAll(old(service.db.data), o, accepted)
        && outbox.db.data == QueuedAll(old(outbox.db.data), outbox.capacity, o, accepted)
    {
      ghost var accepted: seq<Arrival> := [];
      var i := 0;
      while i < |arrivals|
        invariant 0 <= i <= |arrivals|
        invariant Valid() && dedupe.Valid()
        invariant accepted == AcceptedArrivals(old(dedupe.history), o, arrivals[..i], dedupe.capacity)
        invariant dedupe.history == old(dedupe.history) + Ids(o, accepted)
        invariant service.db.data == StoredAll(old(service.db.data), o, accepted)
        invariant outbox.db.data == QueuedAll(old(outbox.db.data), outbox.capacity, o, accepted)
      {
        var a := arrivals[i];
        assert arrivals[..i + 1][..i] == arrivals[..i];
        i := i + 1;
        var id := o.hash(a.sector);
        var seen := dedupe.Seen(id);
        if seen {
          continue;
        }
        dedupe.Mark(id);
        var _ := ProcessInboundDm(o, a);
        assert (accepted + [a])[..|accepted|] == accepted;
        IdsAppend(o, accepted, a);
        accepted := accepted + [a];
      }
      assert arrivals[..i] == arrivals;
    }
  }
}
