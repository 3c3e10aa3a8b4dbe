/** The direct-message service and the stand-alone paginator over the chains column family. */
module DmService {
  import opened ByteStrings
  import opened Wrappers
  import opened OrderedStore
  import opened StableSorting
  import opened Paging
  import opened Seek
  import opened InboxIndex
  import opened Dm

  datatype DmError = ContactNotFound(peer: Id16) | UnknownConversation(id: ConversationId)
    | MessageNotFound(message: Id16) | InvalidStatusTransition(current: MessageStatus, to: MessageStatus)

  /** The messages below the cursor, latest id first. */
  ghost function Source(data: Chains, c: ConversationId, before: Option<Id16>): seq<Message>
    requires WellKeyed(data)
  {
    Sort(LaterId, Below(IdOf, Messages(data, c), before))
  }

  /** Where a listing may start its backward scan. */
  ghost predicate StartsAt(data: Chains, c: ConversationId, before: Option<Id16>, seek: Bytes) {
    && NoGap(data.Keys, MessagePrefix(c), seek)
    && (before.Some? ==> seek == MessageKey(c, before.value))
    && (before.None? ==> forall k :: k in data && MessagePrefix(c) <= k ==> LexLess(k, seek))
  }

  /** The keys met, read backward from `top`, carry `d`; the key before them, if any,
      is outside the conversation; `top` leaves out a stored cursor key. */
  ghost predicate Carries(data: Chains, c: ConversationId, keys: seq<Bytes>, top: nat, d: seq<Message>) {
    && |d| <= top <= |keys| <= top + 1
    && (forall j :: top - |d| <= j < |keys| ==> MessagePrefix(c) <= keys[j])
    && (|d| < top ==> !(MessagePrefix(c) <= keys[top - |d| - 1]))
    && (forall j :: top - |d| <= j < top ==> keys[j] in data && data[keys[j]] == MessageRecord(d[top - 1 - j]))
  }

  /** How many keys met come before a stored cursor key. */
  ghost function Top(data: Chains, before: Option<Id16>, seek: Bytes): int {
    |KeysUpTo(data.Keys, seek)| - if before.Some? && seek in data then 1 else 0
  }

  /** A stored cursor key is the last key met, and the only one equal to it. */
  lemma CursorIsLast(data: Chains, before: Option<Id16>, seek: Bytes)
    ensures var keys, top := KeysUpTo(data.Keys, seek), Top(data, before, seek);
      && 0 <= top <= |keys| <= top + 1
      && (top < |keys| ==> before.Some? && keys[top] == seek)
      && (forall j :: 0 <= j < top && before.Some? ==> keys[j] != seek)
  {
    var keys := KeysUpTo(data.Keys, seek);
    SortedKeysSorts(set k | k in data.Keys && LexLeq(k, seek));
    if seek in data {
      assert seek in keys;
      var i :| 0 <= i < |keys| && keys[i] == seek;
      if i < |keys| - 1 {
        assert keys[|keys| - 1] in keys;
        LexTotal(seek, keys[|keys| - 1]);
      }
      forall j | 0 <= j < |keys| - 1 ensures keys[j] != seek {
        LexTotal(keys[j], keys[|keys| - 1]);
      }
    } else {
      forall j | 0 <= j < |keys| ensures keys[j] != seek {
        assert keys[j] in keys;
      }
    }
  }

  lemma {:induction false} PrefixedSuffix(keys: seq<Bytes>, prefix: Bytes) returns (stop: nat)
    ensures stop <= |keys|
    ensures forall j :: stop <= j < |keys| ==> prefix <= keys[j]
    ensures stop > 0 ==> !(prefix <= keys[stop - 1])
  {
    stop := |keys|;
    while stop > 0 && prefix <= keys[stop - 1]
      invariant 0 <= stop <= |keys|
      invariant forall j :: stop <= j < |keys| ==> prefix <= keys[j]
    {
      stop := stop - 1;
    }
  }

  lemma KeysCarrySource(data: Chains, c: ConversationId, before: Option<Id16>, seek: Bytes)
    requires WellKeyed(data) && StartsAt(data, c, before, seek)
    ensures Top(data, before, seek) >= 0
    ensures Carries(data, c, KeysUpTo(data.Keys, seek), Top(data, before, seek), Source(data, c, before))
  {
    var keys := KeysUpTo(data.Keys, seek);
    CursorIsLast(data, before, seek);
    var stop := PrefixedSuffix(keys, MessagePrefix(c));
    CutIsRange(data, c, before, seek, stop);
    RangeIsSource(data, c, before);
    RangeCarries(data, c, keys, stop, Top(data, before, seek), RangeKeys(data, c, before), Source(data, c, before));
  }

  /** The keys, read backward, hold the messages. */
  ghost predicate Mirrors(data: Chains, range: seq<Bytes>, d: seq<Message>) {
    && |d| == |range|
    && forall i :: 0 <= i < |range| ==> range[i] in data && data[range[i]] == MessageRecord(d[|range| - 1 - i])
  }

  lemma RangeIsSource(data: Chains, c: ConversationId, before: Option<Id16>)
    requires WellKeyed(data)
    ensures var range, d := RangeKeys(data, c, before), Source(data, c, before);
      Mirrors(data, range, d)
  {
    SortedKeysSorts(set k | k in data.Keys && InRange(data, c, before, k));
    RangeIsBelow(data, c, before, RangeKeys(data, c, before));
  }

  ghost function RangeKeys(data: Chains, c: ConversationId, before: Option<Id16>): seq<Bytes> {
    SortedKeys(set k | k in data.Keys && InRange(data, c, before, k))
  }

  /** What the scan may meet is the range below the cursor, and after it a stored cursor key. */
  lemma RangeAndCursor(data: Chains, c: ConversationId, before: Option<Id16>, seek: Bytes)
    requires StartsAt(data, c, before, seek)
    ensures KeysInRange(data.Keys, MessagePrefix(c), seek)
         == RangeKeys(data, c, before) + if before.Some? && seek in data then [seek] else []
  {
    var prefix, below := MessagePrefix(c), RangeKeys(data, c, before);
    SortedKeysSorts(set k | k in data.Keys && InRange(data, c, before, k));
    SortedKeysSorts(set k | k in data.Keys && prefix <= k && LexLeq(k, seek));
    LexTotal(seek, seek);
    if before.Some? && seek in data {
      assert prefix <= seek;
      assert Ascending(below + [seek]) by {
        forall i | 0 <= i < |below| ensures LexLess(below[i], seek) {
          assert below[i] in below;
        }
      }
      var range := KeysInRange(data.Keys, prefix, seek);
      forall k ensures k in range <==> k in below + [seek] {
        assert k in below + [seek] <==> k in below || k == seek;
      }
      AscendingUnique(range, below + [seek]);
    } else {
      assert (set k | k in data.Keys && prefix <= k && LexLeq(k, seek))
          == (set k | k in data.Keys && InRange(data, c, before, k));
    }
  }

  lemma CutIsRange(data: Chains, c: ConversationId, before: Option<Id16>, seek: Bytes, stop: nat)
    requires StartsAt(data, c, before, seek)
    requires stop <= |KeysUpTo(data.Keys, seek)|
    requires forall j :: stop <= j < |KeysUpTo(data.Keys, seek)| ==> MessagePrefix(c) <= KeysUpTo(data.Keys, seek)[j]
    requires stop > 0 ==> !(MessagePrefix(c) <= KeysUpTo(data.Keys, seek)[stop - 1])
    ensures stop <= Top(data, before, seek) <= |KeysUpTo(data.Keys, seek)|
    ensures KeysUpTo(data.Keys, seek)[stop..Top(data, before, seek)] == RangeKeys(data, c, before)
  {
    var keys, top := KeysUpTo(data.Keys, seek), Top(data, before, seek);
    BackwardScanIsExact(data.Keys, MessagePrefix(c), seek, stop);
    RangeAndCursor(data, c, before, seek);
    assert |keys[stop..]| == |keys| - stop;
    assert keys[stop..top] == keys[stop..][..top - stop];
  }

  lemma RangeCarries(data: Chains, c: ConversationId, keys: seq<Bytes>, stop: nat, top: nat, range: seq<Bytes>, d: seq<Message>)
    requires stop <= top <= |keys| <= top + 1 && keys[stop..top] == range && Mirrors(data, range, d)
    requires forall j :: stop <= j < |keys| ==> MessagePrefix(c) <= keys[j]
    requires stop > 0 ==> !(MessagePrefix(c) <= keys[stop - 1])
    ensures Carries(data, c, keys, top, d)
  {
    forall j | stop <= j < top ensures keys[j] in data && data[keys[j]] == MessageRecord(d[top - 1 - j]) {
      assert range[j - stop] == keys[j];
    }
  }

  /** The scan both listings share: backward while keys carry the prefix, leaving out the seek
      key itself when it came from a cursor. */
  method ReadBackward(
    db: ColumnFamily<ChainRecord>, c: ConversationId, keys: seq<Bytes>, seek: Bytes, fromCursor: bool, limit: nat,
    ghost top: nat, ghost d: seq<Message>)
    returns (results: seq<Message>)
    requires Carries(db.data, c, keys, top, d)
    requires top < |keys| ==> fromCursor && keys[top] == seek
    requires forall j :: 0 <= j < top && fromCursor ==> keys[j] != seek
    ensures results == Take(d, if limit == 0 then 1 else limit)
  {
    var prefix := MessagePrefix(c);
    results := [];
    var i := |keys|;
    while i > 0
      invariant 0 <= i <= |keys|
      invariant |results| <= |d| && results == d[..|results|]
      invariant i == top - |results| || (results == [] && i == |keys|)
      invariant results == [] || |results| < limit
    {
      var k := keys[i - 1];
      if !(prefix <= k) {
        break;
      }
      i := i - 1;
      if fromCursor && k == seek {
        continue;
      }
      assert top - 1 - i == |results|;
      results := results + [db.data[k].message];
      if |results| >= limit {
        break;
      }
    }
  }

  method CollectBackward(db: ColumnFamily<ChainRecord>, c: ConversationId, seek: Bytes, before: Option<Id16>, limit: nat)
    returns (results: seq<Message>)
    requires WellKeyed(db.data) && StartsAt(db.data, c, before, seek)
    ensures results == HistoryPage(db.data, c, before, limit)
  {
    var keys := db.IterUpTo(seek);
    KeysCarrySource(db.data, c, before, seek);
    CursorIsLast(db.data, before, seek);
    results := ReadBackward(db, c, keys, seek, before.Some?, limit, Top(db.data, before, seek), Source(db.data, c, before));
  }

  /** The seek position of both listings: the cursor's own key, or the incremented prefix. */
  method SeekPosition(db: ColumnFamily<ChainRecord>, c: ConversationId, before: Option<Id16>, overflow: Overflow)
    returns (seek: Bytes)
    requires WellKeyed(db.data)
    ensures StartsAt(db.data, c, before, seek)
  {
    if before.Some? {
      seek := MessageKey(c, before.value);
      CursorIsSound(db.data.Keys, c, before.value);
    } else {
      seek := IncrementBytes(MessagePrefix(c), overflow);
      SeekIsSound(db.data, c, overflow);
    }
  }

  /** The stand-alone paginator: the same pages as `History`, but none at limit 0. */
  method PaginateMessages(db: ColumnFamily<ChainRecord>, c: ConversationId, before: Option<Id16>, limit: nat)
    returns (results: seq<Message>)
    requires WellKeyed(db.data)
    ensures results == if limit == 0 then [] else HistoryPage(db.data, c, before, limit)
  {
    if limit == 0 {
      return [];
    }
    var seek := SeekPosition(db, c, before, PushBack);
    results := CollectBackward(db, c, seek, before, limit);
  }

  class DmService {
    const db: ColumnFamily<ChainRecord>

    constructor (db: ColumnFamily<ChainRecord>)
      ensures this.db == db
    {
      this.db := db;
    }

    /** Opens the conversation with a known contact, storing it the first time. `c` is the
        conversation id derived from the two identities. */
    method OpenConversation(peer: Id16, isContact: bool, c: ConversationId) returns (r: Result<Conversation, DmError>)
      requires WellKeyed(db.data)
      modifies db
      ensures WellKeyed(db.data)
      ensures !isContact ==> r == Err(ContactNotFound(peer)) && db.data == old(db.data)
      ensures isContact ==> r.Ok? && ConversationKey(c) in db.data && db.data[ConversationKey(c)] == ConversationRecord(r.value)
      ensures ConversationKey(c) in old(db.data) ==> db.data == old(db.data)
      ensures isContact && ConversationKey(c) !in old(db.data) ==>
        r.value == Conversation(c, peer, None) && db.data == old(db.data)[ConversationKey(c) := ConversationRecord(r.value)]
    {
      if !isContact {
        return Err(ContactNotFound(peer));
      }
      var found := db.Get(ConversationKey(c));
      if found.Some? {
        ConversationKeyHoldsConversation(c, found.value);
        return Ok(found.value.conversation);
      }
      var conv := Conversation(c, peer, None);
      db.Put(ConversationKey(c), ConversationRecord(conv));
      return Ok(conv);
    }

    method StoreMessage(m: Message)
      requires WellKeyed(db.data)
      modifies db
      ensures WellKeyed(db.data)
      ensures db.data == old(db.data)[MessageKey(m.conversationId, m.id) := MessageRecord(m)]
    {
      db.Put(MessageKey(m.conversationId, m.id), MessageRecord(m));
    }

    method GetMessage(c: ConversationId, id: Id16) returns (r: Option<Message>)
      requires WellKeyed(db.data)
      ensures r.Some? <==> MessageKey(c, id) in db.data
      ensures r.Some? ==> db.data[MessageKey(c, id)] == MessageRecord(r.value)
      ensures r.Some? ==> r.value.conversationId == c && r.value.id == id
    {
      var found := db.Get(MessageKey(c, id));
      if found.None? {
        return None;
      }
      MessageKeyHoldsMessage(c, id, found.value);
      return Some(found.value.message);
    }

    /** One page of the conversation's messages below the cursor, latest id first. */
    method History(c: ConversationId, before: Option<Id16>, limit: nat) returns (results: seq<Message>)
      requires WellKeyed(db.data)
      ensures results == HistoryPage(db.data, c, before, limit)
    {
      var seek := SeekPosition(db, c, before, InsertFront);
      results := CollectBackward(db, c, seek, before, limit);
    }

    method UpdateStatus(c: ConversationId, id: Id16, status: MessageStatus, now: U64) returns (r: Result<(), DmError>)
      requires WellKeyed(db.data)
      modifies db
      ensures WellKeyed(db.data)
      ensures db.data == StatusUpdated(old(db.data), c, id, status, now)
      ensures MessageKey(c, id) !in old(db.data) <==> r == Err(MessageNotFound(id))
      ensures r.Ok? <==> MessageKey(c, id) in old(db.data) && db.data[MessageKey(c, id)] != old(db.data)[MessageKey(c, id)]
      ensures r.Err? ==> db.data == old(db.data)
      ensures r.Err? && MessageKey(c, id) in old(db.data) ==>
        r == Err(InvalidStatusTransition(old(db.data)[MessageKey(c, id)].message.status, status))
      ensures MovesForward(old(db.data), db.data, MessageKey(c, id), status, now, r.Ok?)
    {
      HoldsMessage(db.data, c, id);
      var found := GetMessage(c, id);
      if found.None? {
        return Err(MessageNotFound(id));
      }
      var m := found.value;
      ForwardIff(m.status, status);
      if !(Rank(status) > Rank(m.status)) {
        return Err(InvalidStatusTransition(m.status, status));
      }
      StoreMessage(m.(status := status, statusUpdatedAtMs := now));
      return Ok(());
    }

    method ProcessReceipt(receipt: Receipt) returns (r: Result<(), DmError>)
      requires WellKeyed(db.data)
      modifies db
      ensures WellKeyed(db.data)
      ensures db.data == RunReceipts(old(db.data), [receipt])
      ensures r.Ok? <==> db.data != old(db.data)
      ensures MovesForward(old(db.data), db.data, MessageKey(receipt.conversationId, receipt.messageId), receipt.status, receipt.at, r.Ok?)
    {
      assert RunReceipts(old(db.data), [receipt][..0]) == old(db.data);
      r := UpdateStatus(receipt.conversationId, receipt.messageId, receipt.status, receipt.at);
    }
  }

  /** The stored message takes the status, and its time, exactly if that is one of the six steps
      forward; otherwise nothing changes. */
  ghost predicate MovesForward(before: Chains, after: Chains, key: Bytes, status: MessageStatus, now: U64, ok: bool) {
    && (ok <==> key in before && before[key].MessageRecord? && Forward(before[key].message.status, status))
    && (ok ==> after == before[key := MessageRecord(before[key].message.(status := status, statusUpdatedAtMs := now))])
    && (!ok ==> after == before)
  }

  lemma HoldsMessage(data: Chains, c: ConversationId, id: Id16)
    requires WellKeyed(data)
    ensures MessageKey(c, id) in data ==> data[MessageKey(c, id)].MessageRecord?
  {
    if MessageKey(c, id) in data {
      MessageKeyHoldsMessage(c, id, data[MessageKey(c, id)]);
    }
  }

  lemma MessageKeyHoldsMessage(c: ConversationId, id: Id16, r: ChainRecord)
    requires KeyOf(r) == MessageKey(c, id)
    ensures r.MessageRecord? && r.message.conversationId == c && r.message.id == id
  {
    MessagePrefixIff(c, r);
    assert MessagePrefix(c) <= MessageKey(c, id);
    assert MessageKey(c, id)[39..] == id;
    assert KeyOf(r)[39..] == r.message.id;
  }

  lemma ConversationKeyHoldsConversation(c: ConversationId, r: ChainRecord)
    requires KeyOf(r) == ConversationKey(c)
    ensures r.ConversationRecord?
  {
    assert ConversationKey(c)[2] == 0x3a;
  }
}
