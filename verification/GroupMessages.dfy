/** Group messages: their place in the shared column family, listing and receipts. */
module GroupMessages {
  import opened ByteStrings
  import opened Wrappers
  import opened OrderedStore
  import opened StableSorting
  import opened Paging
  import opened StatusLattice
  import opened GroupManifest

  datatype GroupMessageStatus = Sent | Delivered | Read

  function Rank(s: GroupMessageStatus): nat {
    match s case Sent => 0 case Delivered => 1 case Read => 2
  }

  datatype GroupMessage = GroupMessage(
    id: Id16,
    groupId: Id16,
    senderIdentity: Id16,
    senderMachine: Id16,
    text: Bytes,
    mlsEpoch: U64,
    createdAtMs: U64,
    status: GroupMessageStatus)

  /** The two kinds of record that share the column family. */
  datatype GroupRecord = ManifestRecord(manifest: GroupManifest) | MessageRecord(message: GroupMessage)

  type Groups = map<Bytes, GroupRecord>

  const MESSAGE_TAG: Bytes := [0x67, 0x72, 0x6f, 0x75, 0x70, 0x5f, 0x6d, 0x73, 0x67, 0x3a]

  function MessagePrefix(group: Id16): Bytes {
    MESSAGE_TAG + group
  }

  function MessageKey(group: Id16, id: Id16): Bytes {
    MessagePrefix(group) + id
  }

  function KeyOf(r: GroupRecord): Bytes {
    match r
    case ManifestRecord(m) => m.groupId
    case MessageRecord(m) => MessageKey(m.groupId, m.id)
  }

  ghost predicate WellKeyed(data: Groups) {
    forall k :: k in data ==> k == KeyOf(data[k])
  }

  lemma MessagePrefixIff(group: Id16, r: GroupRecord)
    ensures MessagePrefix(group) <= KeyOf(r) <==> r.MessageRecord? && r.message.groupId == group
  {
    if r.MessageRecord? {
      assert MessagePrefix(group) + [] == MessagePrefix(group);
      PrefixSplit(MessagePrefix(group), [], MessagePrefix(r.message.groupId), r.message.id);
      PrefixSplit(MESSAGE_TAG, group, MESSAGE_TAG, r.message.groupId);
    }
  }

  lemma MessageKeyHoldsMessage(group: Id16, id: Id16, r: GroupRecord)
    requires KeyOf(r) == MessageKey(group, id)
    ensures r.MessageRecord? && r.message.groupId == group && r.message.id == id
  {
    assert MessagePrefix(group) <= MessageKey(group, id);
    MessagePrefixIff(group, r);
    assert MessageKey(group, id)[26..] == id;
    assert KeyOf(r)[26..] == r.message.id;
  }

  function IdOf(m: GroupMessage): Bytes {
    m.id
  }

  /** The listing order: creation time first, then id, both descending. */
  predicate NewerFirst(a: GroupMessage, b: GroupMessage) {
    b.createdAtMs < a.createdAtMs || (b.createdAtMs == a.createdAtMs && LexLeq(b.id, a.id))
  }

  lemma NewerFirstTotal()
    ensures TotalPreorder(NewerFirst)
  {
    forall a: GroupMessage, b: GroupMessage ensures NewerFirst(a, b) || NewerFirst(b, a) {
      LexTotal(a.id, b.id);
    }
    forall a: GroupMessage, b: GroupMessage, c: GroupMessage | NewerFirst(a, b) && NewerFirst(b, c) ensures NewerFirst(a, c) {
      if a.createdAtMs == b.createdAtMs == c.createdAtMs {
        LexTransitive(c.id, b.id, a.id);
      }
    }
  }

  /** The group's messages in key order. */
  ghost function Messages(data: Groups, group: Id16): seq<GroupMessage>
    requires WellKeyed(data)
  {
    var keys := KeysWithPrefix(data.Keys, MessagePrefix(group));
    PrefixKeys(data.Keys, MessagePrefix(group));
    seq(|keys|, i requires 0 <= i < |keys| =>
      assert keys[i] in keys;
      MessagePrefixIff(group, data[keys[i]]);
      data[keys[i]].message)
  }

  ghost function ListPage(data: Groups, group: Id16, before: Option<Id16>, limit: nat): seq<GroupMessage>
    requires WellKeyed(data)
  {
    Page(NewerFirst, IdOf, Messages(data, group), before, limit)
  }

  lemma MessagesDistinct(data: Groups, group: Id16)
    requires WellKeyed(data)
    ensures DistinctIds(IdOf, Messages(data, group))
    ensures forall m: GroupMessage :: m in Messages(data, group) <==>
      MessageKey(group, m.id) in data && data[MessageKey(group, m.id)] == MessageRecord(m) && m.groupId == group
  {
    var p, s := MessagePrefix(group), Messages(data, group);
    var keys := KeysWithPrefix(data.Keys, p);
    PrefixKeys(data.Keys, p);
    forall i | 0 <= i < |keys|
      ensures keys[i] in data && data[keys[i]] == MessageRecord(s[i]) && s[i].groupId == group && keys[i] == p + s[i].id
    {
      assert keys[i] in keys;
      MessagePrefixIff(group, data[keys[i]]);
    }
    forall i, j | 0 <= i < j < |s| ensures s[i].id != s[j].id {
      LexTotal(keys[i], keys[j]);
    }
    forall m: GroupMessage | MessageKey(group, m.id) in data && data[MessageKey(group, m.id)] == MessageRecord(m) && m.groupId == group
      ensures m in s
    {
      assert MessageKey(group, m.id) in keys;
      var i :| 0 <= i < |keys| && keys[i] == MessageKey(group, m.id);
      assert s[i] == m;
    }
  }

  /** No message has a later id than another and an earlier creation time. */
  ghost predicate TimesFollowIds(s: seq<GroupMessage>) {
    forall a, b :: a in s && b in s && LexLess(a.id, b.id) ==> a.createdAtMs <= b.createdAtMs
  }

  lemma SortedDistinct(s: seq<GroupMessage>)
    requires DistinctIds(IdOf, s)
    ensures DistinctIds(IdOf, Sort(NewerFirst, s))
    ensures forall m :: m in Sort(NewerFirst, s) <==> m in s
  {
    var t := Sort(NewerFirst, s);
    SortPermutes(NewerFirst, s);
    forall m ensures m in t <==> m in s {
      assert m in multiset(t) <==> m in multiset(s);
    }
    forall i, j | 0 <= i < j < |t| ensures IdOf(t[i]) != IdOf(t[j]) {
      if IdOf(t[i]) == IdOf(t[j]) {
        assert t[i] in t && t[j] in t;
        var a :| 0 <= a < |s| && s[a] == t[i];
        var b :| 0 <= b < |s| && s[b] == t[j];
        assert a == b by {
          assert IdOf(s[a]) == IdOf(s[b]);
        }
        CountsOnce(s, t[i]);
        CountsTwice(t, i, j);
      }
    }
  }

  lemma LaterIdFirst(t: seq<GroupMessage>, i: nat, j: nat)
    requires Descending(IdOf, t) && i < |t| && j < |t| && LexLess(IdOf(t[i]), IdOf(t[j]))
    ensures j < i
  {
    LexTotal(IdOf(t[i]), IdOf(t[j]));
  }

  lemma DescendingIff(s: seq<GroupMessage>)
    requires DistinctIds(IdOf, s)
    ensures Descending(IdOf, Sort(NewerFirst, s)) <==> TimesFollowIds(s)
  {
    var t := Sort(NewerFirst, s);
    NewerFirstTotal();
    SortSorts(NewerFirst, s);
    SortedDistinct(s);
    if Descending(IdOf, t) {
      forall a, b | a in s && b in s && LexLess(a.id, b.id) ensures a.createdAtMs <= b.createdAtMs {
        var i :| 0 <= i < |t| && t[i] == a;
        var j :| 0 <= j < |t| && t[j] == b;
        LaterIdFirst(t, i, j);
        assert NewerFirst(t[j], t[i]);
      }
    }
    if TimesFollowIds(s) {
      forall i, j | 0 <= i < j < |t| ensures LexLess(IdOf(t[j]), IdOf(t[i])) {
        assert NewerFirst(t[i], t[j]);
        assert t[i] in t && t[j] in t;
        assert IdOf(t[i]) != IdOf(t[j]);
        LexTotal(t[i].id, t[j].id);
      }
    }
  }

  /** Paging a group by the last listed id, whatever the page size, lists every message once in
      listing order exactly when creation times follow ids; received messages carry both from
      their senders, so this need not hold. */
  lemma ListPagingCompleteIff(data: Groups, group: Id16)
    requires WellKeyed(data)
    ensures var s := Messages(data, group);
      TimesFollowIds(s) <==>
      forall k: nat {:trigger Chain(NewerFirst, IdOf, s, None, k)} :: k >= 1 ==>
        Concat(Chain(NewerFirst, IdOf, s, None, k)) == Sort(NewerFirst, s)
  {
    var s := Messages(data, group);
    MessagesDistinct(data, group);
    NewerFirstTotal();
    SortedDistinct(s);
    DescendingIff(s);
    PagingCompleteIff(NewerFirst, IdOf, s);
  }

  /** A message created at `at`, as far as listings look at it. */
  function Stamped(group: Id16, id: Id16, at: U64): GroupMessage {
    GroupMessage(id, group, id, id, [], 0, at, Sent)
  }

  /** Two messages sent by clocks that disagree: the later id carries the earlier time. */
  function Skewed(group: Id16, x: Id16, y: Id16): Groups {
    map[MessageKey(group, x) := MessageRecord(Stamped(group, x, 1)), MessageKey(group, y) := MessageRecord(Stamped(group, y, 0))]
  }

  /** Creation times need not follow ids; then paging with some page size loses a message. */
  lemma SkewedListing(group: Id16, x: Id16, y: Id16)
    requires LexLess(x, y)
    ensures WellKeyed(Skewed(group, x, y))
    ensures var s := Messages(Skewed(group, x, y), group);
      && Stamped(group, x, 1) in s && Stamped(group, y, 0) in s
      && exists k: nat :: k >= 1 && Concat(Chain(NewerFirst, IdOf, s, None, k)) != Sort(NewerFirst, s)
  {
    var data := Skewed(group, x, y);
    LexTotal(x, y);
    assert MessageKey(group, x)[26..] == x && MessageKey(group, y)[26..] == y;
    MessagesDistinct(data, group);
    ListPagingCompleteIff(data, group);
  }

  datatype Event = Receive(message: GroupMessage) | Receipt(group: Id16, id: Id16, status: GroupMessageStatus)

  ghost function Received(data: Groups, m: GroupMessage): Groups {
    if m.groupId in data && MessageKey(m.groupId, m.id) !in data
    then data[MessageKey(m.groupId, m.id) := MessageRecord(m)] else data
  }

  ghost function ReceiptApplied(data: Groups, group: Id16, id: Id16, status: GroupMessageStatus): Groups {
    var key := MessageKey(group, id);
    if key in data && data[key].MessageRecord? && Rank(status) > Rank(data[key].message.status)
    then data[key := MessageRecord(data[key].message.(status := status))] else data
  }

  ghost function RunEvents(data: Groups, events: seq<Event>): Groups {
    if events == [] then data else
      var before := RunEvents(data, events[..|events| - 1]);
      match events[|events| - 1]
      case Receive(m) => Received(before, m)
      case Receipt(g, id, status) => ReceiptApplied(before, g, id, status)
  }

  ghost function RanksFor(events: seq<Event>, key: Bytes): seq<nat> {
    if events == [] then [] else
      RanksFor(events[..|events| - 1], key)
      + match events[|events| - 1]
        case Receive(_) => []
        case Receipt(g, id, status) => if MessageKey(g, id) == key then [Rank(status)] else []
  }

  /** A stored message survives any receives and receipts with only its status advanced, to the
      furthest receipt for it: late, repeated and reordered deliveries change nothing else. */
  lemma {:induction false} EventsJoin(data: Groups, events: seq<Event>, key: Bytes)
    requires key in data && data[key].MessageRecord?
    ensures key in RunEvents(data, events) && RunEvents(data, events)[key].MessageRecord?
    ensures var m, m' := data[key].message, RunEvents(data, events)[key].message;
      && Rank(m'.status) == AdvanceAll(Rank(m.status), RanksFor(events, key))
      && m'.(status := m.status) == m
  {
    if events == [] {
    } else {
      var before := events[..|events| - 1];
      EventsJoin(data, before, key);
      var ranks := RanksFor(events, key);
      if |ranks| > |RanksFor(before, key)| {
        assert ranks[..|ranks| - 1] == RanksFor(before, key);
      } else {
        assert ranks == RanksFor(before, key);
      }
    }
  }

  /** The three ways forward. */
  ghost predicate Forward(s: GroupMessageStatus, t: GroupMessageStatus) {
    match s
    case Sent => t == Delivered || t == Read
    case Delivered => t == Read
    case Read => false
  }

  lemma ForwardIff(s: GroupMessageStatus, t: GroupMessageStatus)
    ensures Forward(s, t) <==> Rank(t) > Rank(s)
  {
  }

  /** A receipt in the run for the message under the key, with this status. */
  ghost predicate Brought(events: seq<Event>, key: Bytes, status: GroupMessageStatus) {
    exists e :: e in events && e.Receipt? && MessageKey(e.group, e.id) == key && e.status == status
  }

  lemma {:induction false} RanksBrought(events: seq<Event>, key: Bytes, status: GroupMessageStatus)
    ensures Rank(status) in RanksFor(events, key) <==> Brought(events, key, status)
  {
    if events == [] {
    } else {
      var before, last := events[..|events| - 1], events[|events| - 1];
      RanksBrought(before, key, status);
      assert events == before + [last];
      if Brought(before, key, status) {
        var e :| e in before && e.Receipt? && MessageKey(e.group, e.id) == key && e.status == status;
        assert e in events;
      }
    }
  }

  /** Which status a message ends with: Read if it had it or a receipt brought it; otherwise
      Delivered, on the same terms; otherwise Sent. */
  lemma {:induction false} FurthestStatus(data: Groups, events: seq<Event>, key: Bytes)
    requires key in data && data[key].MessageRecord?
    ensures key in RunEvents(data, events) && RunEvents(data, events)[key].MessageRecord?
    ensures var start, end := data[key].message.status, RunEvents(data, events)[key].message.status;
      && (end == Read <==> start == Read || Brought(events, key, Read))
      && (end == Delivered <==> start != Read && !Brought(events, key, Read) && (start == Delivered || Brought(events, key, Delivered)))
  {
    EventsJoin(data, events, key);
    var start := data[key].message.status;
    AdvanceAllIsMax(Rank(start), RanksFor(events, key));
    RanksBrought(events, key, Read);
    RanksBrought(events, key, Delivered);
    RanksBrought(events, key, Sent);
  }
}
