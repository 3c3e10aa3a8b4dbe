/** Direct messages as stored: record keys, the conversation's message list and its pages. */
module Dm {
  import opened ByteStrings
  import opened Wrappers
  import opened OrderedStore
  import opened StableSorting
  import opened Paging
  import opened Seek
  import opened StatusLattice
  import opened InboxIndex

  datatype MessageStatus = Queued | Sent | Delivered | Read

  function Rank(s: MessageStatus): nat {
    match s case Queued => 0 case Sent => 1 case Delivered => 2 case Read => 3
  }

  datatype Message = Message(
    id: Id16,
    conversationId: ConversationId,
    senderIdentity: Id16,
    senderMachine: Id16,
    text: Bytes,
    status: MessageStatus,
    createdAtMs: U64,
    statusUpdatedAtMs: U64)

  datatype Conversation = Conversation(conversationId: ConversationId, peer: Id16, lastSector: Option<Id16>)

  /** The two kinds of record that share the column family. */
  datatype ChainRecord = ConversationRecord(conversation: Conversation) | MessageRecord(message: Message)

  type Chains = map<Bytes, ChainRecord>

  const CONVERSATION_TAG: Bytes := [0x64, 0x6d, 0x3a]
  const MESSAGE_TAG: Bytes := [0x64, 0x6d, 0x5f, 0x6d, 0x73, 0x67, 0x3a]

  function ConversationKey(c: ConversationId): Bytes {
    CONVERSATION_TAG + c
  }

  function MessagePrefix(c: ConversationId): Bytes {
    MESSAGE_TAG + c
  }

  function MessageKey(c: ConversationId, id: Id16): Bytes {
    MessagePrefix(c) + id
  }

  function KeyOf(r: ChainRecord): Bytes {
    match r
    case ConversationRecord(c) => ConversationKey(c.conversationId)
    case MessageRecord(m) => MessageKey(m.conversationId, m.id)
  }

  ghost predicate WellKeyed(data: Chains) {
    forall k :: k in data ==> k == KeyOf(data[k])
  }

  lemma MessagePrefixIff(c: ConversationId, r: ChainRecord)
    ensures MessagePrefix(c) <= KeyOf(r) <==> r.MessageRecord? && r.message.conversationId == c
  {
    match r
    case ConversationRecord(v) =>
      assert KeyOf(r)[2] == 0x3a && MessagePrefix(c)[2] == 0x5f;
    case MessageRecord(m) =>
      assert MessagePrefix(c) + [] == MessagePrefix(c);
      PrefixSplit(MessagePrefix(c), [], MessagePrefix(m.conversationId), m.id);
      PrefixSplit(MESSAGE_TAG, c, MESSAGE_TAG, m.conversationId);
  }

  /** Starting a reverse scan of a column family with only these keys at `seek` meets no
      foreign key before the prefix's own. */
  ghost predicate NoGap(keys: set<Bytes>, prefix: Bytes, seek: Bytes) {
    forall k :: k in keys && LexLeq(prefix, k) && LexLeq(k, seek) ==> prefix <= k
  }

  lemma {:induction false} TagCarry(c: ConversationId, overflow: Overflow)
    ensures var u := Incremented(MessagePrefix(c), overflow);
      && |u| == 39 && BeNat(u) == BeNat(MessagePrefix(c)) + 1 && u[2] == 0x5f
  {
    var p := MessagePrefix(c);
    assert p[0] == 0x64;
    assert !AllFF(p);
    CarriedAddsOne(p);
    var u := Carried(p);
    CutsDifferByOne(p, u, 3);
    CutsDifferByOne(p, u, 7);
    assert p[..3] == [0x64, 0x6d, 0x5f] && p[..7] == MESSAGE_TAG;
    TagCut(p[..7], u[..7]);
    assert u[2] == u[..7][2];
  }

  lemma TagCut(t: Bytes, v: Bytes)
    requires |v| == 7 && t == MESSAGE_TAG && BeNat(t) <= BeNat(v) <= BeNat(t) + 1
    ensures v[2] == 0x5f
  {
    var w: Bytes := [0x64, 0x6d, 0x5f, 0x6d, 0x73, 0x67, 0x3b];
    assert w[..6] == MESSAGE_TAG[..6];
    assert BeNat(w) == BeNat(MESSAGE_TAG) + 1;
    BeNatInjective(v, t);
    BeNatInjective(v, w);
  }

  /** The incremented prefix is a safe start: it is above the conversation's messages, and no
      stored key lies between, whatever bytes the conversation id ends in. */
  lemma SeekIsSound(data: Chains, c: ConversationId, overflow: Overflow)
    requires WellKeyed(data)
    ensures var p, u := MessagePrefix(c), Incremented(MessagePrefix(c), overflow);
      && (forall k :: k in data && p <= k ==> LexLess(k, u))
      && (forall k :: k in data && LexLeq(k, u) && LexLeq(p, k) ==> p <= k)
  {
    var p, u := MessagePrefix(c), Incremented(MessagePrefix(c), overflow);
    TagCarry(c, overflow);
    assert p[0] == 0x64;
    assert !AllFF(p);
    AboveExtensionsIff(p, overflow);
    forall k | k in data && p <= k ensures LexLess(k, u) {
      assert k == p + k[|p|..];
    }
    forall k | k in data && LexLeq(k, u) && LexLeq(p, k) ensures p <= k {
      if k != p {
        SeekGap(p, u, k);
        assert k == KeyOf(data[k]);
        match data[k]
        case ConversationRecord(_) => assert k[2] == 0x3a;
        case MessageRecord(_) => assert |k| == 55;
      }
    }
  }

  /** A message key seeks to itself: the keys between it and the prefix are the conversation's. */
  lemma CursorIsSound(keys: set<Bytes>, c: ConversationId, id: Id16)
    ensures NoGap(keys, MessagePrefix(c), MessageKey(c, id))
  {
    forall k | k in keys && LexLeq(MessagePrefix(c), k) && LexLeq(k, MessageKey(c, id)) ensures MessagePrefix(c) <= k {
      PrefixConvex(MessagePrefix(c), k, MessageKey(c, id));
    }
  }

  ghost function KeysInRange(keys: set<Bytes>, prefix: Bytes, seek: Bytes): seq<Bytes> {
    SortedKeys(set k | k in keys && prefix <= k && LexLeq(k, seek))
  }

  lemma NoneBeforeStop(keys: set<Bytes>, prefix: Bytes, seek: Bytes, stop: nat, j: nat)
    requires NoGap(keys, prefix, seek) && stop <= |KeysUpTo(keys, seek)|
    requires stop > 0 ==> !(prefix <= KeysUpTo(keys, seek)[stop - 1])
    requires j < |KeysUpTo(keys, seek)| && prefix <= KeysUpTo(keys, seek)[j]
    ensures j >= stop
  {
    var all := KeysUpTo(keys, seek);
    SortedKeysSorts(set k | k in keys && LexLeq(k, seek));
    if j < stop {
      PrefixIsLeast(prefix, all[j]);
      assert all[stop - 1] in all;
      assert LexLeq(all[j], all[stop - 1]);
      LexTransitive(prefix, all[j], all[stop - 1]);
    }
  }

  /** A backward scan that stops at the first key without the prefix has met them all. */
  lemma BackwardScanIsExact(keys: set<Bytes>, prefix: Bytes, seek: Bytes, stop: nat)
    requires NoGap(keys, prefix, seek)
    requires stop <= |KeysUpTo(keys, seek)|
    requires forall j :: stop <= j < |KeysUpTo(keys, seek)| ==> prefix <= KeysUpTo(keys, seek)[j]
    requires stop > 0 ==> !(prefix <= KeysUpTo(keys, seek)[stop - 1])
    ensures KeysUpTo(keys, seek)[stop..] == KeysInRange(keys, prefix, seek)
  {
    var all, found := KeysUpTo(keys, seek), KeysInRange(keys, prefix, seek);
    SortedKeysSorts(set k | k in keys && LexLeq(k, seek));
    SortedKeysSorts(set k | k in keys && prefix <= k && LexLeq(k, seek));
    forall k ensures k in all[stop..] <==> k in found {
      if k in all[stop..] {
        assert k in all;
      }
      if k in found {
        assert k in all;
        var j :| 0 <= j < |all| && all[j] == k;
        NoneBeforeStop(keys, prefix, seek, stop, j);
        assert k == all[stop..][j - stop];
      }
    }
    AscendingUnique(all[stop..], found);
  }

  function IdOf(m: Message): Bytes {
    m.id
  }

  /** The order of history pages: by message id, latest first. */
  predicate LaterId(a: Message, b: Message) {
    LexLeq(b.id, a.id)
  }

  ghost predicate AscendingIds(s: seq<Message>) {
    forall i, j :: 0 <= i < j < |s| ==> LexLess(s[i].id, s[j].id)
  }

  /** The conversation's messages in key order. */
  ghost function Messages(data: Chains, c: ConversationId): seq<Message>
    requires WellKeyed(data)
  {
    var keys := KeysWithPrefix(data.Keys, MessagePrefix(c));
    PrefixKeys(data.Keys, MessagePrefix(c));
    seq(|keys|, i requires 0 <= i < |keys| =>
      assert keys[i] in keys;
      MessagePrefixIff(c, data[keys[i]]);
      data[keys[i]].message)
  }

  /** What `history` promises: one page of the conversation in descending id. A limit of 0
      behaves as 1, the loop pushing before it looks at the limit. */
  ghost function HistoryPage(data: Chains, c: ConversationId, before: Option<Id16>, limit: nat): seq<Message>
    requires WellKeyed(data)
  {
    Page(LaterId, IdOf, Messages(data, c), before, if limit == 0 then 1 else limit)
  }

  lemma LaterIdTotal()
    ensures TotalPreorder(LaterId)
  {
    forall a: Message, b: Message ensures LaterId(a, b) || LaterId(b, a) {
      LexTotal(a.id, b.id);
    }
    forall a: Message, b: Message, c: Message | LaterId(a, b) && LaterId(b, c) ensures LaterId(a, c) {
      LexTransitive(c.id, b.id, a.id);
    }
  }

  lemma MessagesAscend(data: Chains, c: ConversationId)
    requires WellKeyed(data)
    ensures AscendingIds(Messages(data, c))
    ensures forall m: Message :: m in Messages(data, c) <==>
      MessageKey(c, m.id) in data && data[MessageKey(c, m.id)] == MessageRecord(m) && m.conversationId == c
  {
    var p, s := MessagePrefix(c), Messages(data, c);
    var keys := KeysWithPrefix(data.Keys, p);
    PrefixKeys(data.Keys, p);
    forall i | 0 <= i < |keys|
      ensures keys[i] in data && data[keys[i]] == MessageRecord(s[i]) && s[i].conversationId == c && keys[i] == p + s[i].id
    {
      assert keys[i] in keys;
      MessagePrefixIff(c, data[keys[i]]);
    }
    forall i, j | 0 <= i < j < |s| ensures LexLess(s[i].id, s[j].id) {
      LexSplit(p, s[i].id, p, s[j].id);
      LexTotal(p, p);
    }
    forall m: Message | MessageKey(c, m.id) in data && data[MessageKey(c, m.id)] == MessageRecord(m) && m.conversationId == c
      ensures m in s
    {
      assert MessageKey(c, m.id) in keys;
      var i :| 0 <= i < |keys| && keys[i] == MessageKey(c, m.id);
      assert s[i] == m;
    }
  }

  ghost function Reversed<T>(s: seq<T>): seq<T> {
    seq(|s|, i requires 0 <= i < |s| => s[|s| - 1 - i])
  }

  lemma {:induction false} InsertAtEnd(x: Message, s: seq<Message>)
    requires forall i :: 0 <= i < |s| ==> LexLess(x.id, s[i].id)
    ensures Insert(LaterId, x, s) == s + [x]
  {
    if s == [] {
    } else {
      LexTotal(x.id, s[0].id);
      InsertAtEnd(x, s[1..]);
    }
  }

  lemma {:induction false} SortReverses(s: seq<Message>)
    requires AscendingIds(s)
    ensures Sort(LaterId, s) == Reversed(s)
  {
    if s == [] {
    } else {
      SortReverses(s[1..]);
      InsertAtEnd(s[0], Reversed(s[1..]));
      assert Reversed(s) == Reversed(s[1..]) + [s[0]];
    }
  }

  lemma {:induction false} BelowAscends(s: seq<Message>, before: Option<Bytes>)
    requires AscendingIds(s)
    ensures AscendingIds(Below(IdOf, s, before))
  {
    if s == [] {
    } else {
      BelowAscends(s[1..], before);
      BelowMembers(IdOf, s[1..], before);
      var rest := Below(IdOf, s[1..], before);
      forall i | 0 <= i < |rest| ensures LexLess(s[0].id, rest[i].id) {
        assert rest[i] in rest;
        var j :| 0 <= j < |s[1..]| && s[1..][j] == rest[i];
        assert s[j + 1] == rest[i];
      }
    }
  }

  ghost function KeysOf(c: ConversationId, s: seq<Message>): seq<Bytes> {
    seq(|s|, i requires 0 <= i < |s| => MessageKey(c, s[i].id))
  }

  lemma KeysOfAscend(c: ConversationId, s: seq<Message>)
    requires AscendingIds(s)
    ensures Ascending(KeysOf(c, s))
  {
    var p := MessagePrefix(c);
    LexTotal(p, p);
    forall i, j | 0 <= i < j < |s| ensures LexLess(p + s[i].id, p + s[j].id) {
      LexSplit(p, s[i].id, p, s[j].id);
    }
  }

  ghost predicate InRange(data: Chains, c: ConversationId, before: Option<Id16>, k: Bytes) {
    k in data && MessagePrefix(c) <= k && (before.Some? ==> LexLess(k, MessageKey(c, before.value)))
  }

  lemma RangeMembers(data: Chains, c: ConversationId, before: Option<Id16>, k: Bytes)
    requires WellKeyed(data)
    ensures k in KeysOf(c, Below(IdOf, Messages(data, c), before)) <==> InRange(data, c, before, k)
  {
    var s := Messages(data, c);
    var b := Below(IdOf, s, before);
    MessagesAscend(data, c);
    BelowMembers(IdOf, s, before);
    CursorOrder(MessagePrefix(c), before, k);
    if k in KeysOf(c, b) {
      var i :| 0 <= i < |b| && KeysOf(c, b)[i] == k;
      assert b[i] in b;
    }
    if InRange(data, c, before, k) {
      MessagePrefixIff(c, data[k]);
      var m := data[k].message;
      assert m in b;
      var i :| 0 <= i < |b| && b[i] == m;
      assert KeysOf(c, b)[i] == k;
    }
  }

  lemma KeysOfRange(data: Chains, c: ConversationId, before: Option<Id16>, keys: seq<Bytes>)
    requires WellKeyed(data)
    requires Ascending(keys) && forall k :: k in keys <==> InRange(data, c, before, k)
    ensures KeysOf(c, Below(IdOf, Messages(data, c), before)) == keys
  {
    var s := Messages(data, c);
    MessagesAscend(data, c);
    BelowAscends(s, before);
    var ks := KeysOf(c, Below(IdOf, s, before));
    KeysOfAscend(c, Below(IdOf, s, before));
    forall k ensures k in ks <==> k in keys {
      RangeMembers(data, c, before, k);
    }
    AscendingUnique(ks, keys);
  }

  lemma MessageStored(data: Chains, c: ConversationId, before: Option<Id16>, m: Message)
    requires WellKeyed(data) && m in Below(IdOf, Messages(data, c), before)
    ensures MessageKey(c, m.id) in data && data[MessageKey(c, m.id)] == MessageRecord(m)
  {
    BelowMembers(IdOf, Messages(data, c), before);
    MessagesAscend(data, c);
  }

  /** The keys below the cursor, read backward, are the sorted page source. */
  lemma RangeIsBelow(data: Chains, c: ConversationId, before: Option<Id16>, keys: seq<Bytes>)
    requires WellKeyed(data)
    requires Ascending(keys) && forall k :: k in keys <==> InRange(data, c, before, k)
    ensures var d := Sort(LaterId, Below(IdOf, Messages(data, c), before));
      && |d| == |keys|
      && forall i :: 0 <= i < |keys| ==> keys[i] in data && data[keys[i]] == MessageRecord(d[|keys| - 1 - i])
  {
    var b := Below(IdOf, Messages(data, c), before);
    assert KeysOf(c, b) == keys by {
      KeysOfRange(data, c, before, keys);
    }
    assert Sort(LaterId, b) == Reversed(b) by {
      MessagesAscend(data, c);
      BelowAscends(Messages(data, c), before);
      SortReverses(b);
    }
    forall i | 0 <= i < |keys| ensures keys[i] in data && data[keys[i]] == MessageRecord(b[i]) {
      assert keys[i] == KeysOf(c, b)[i];
      MessageStored(data, c, before, b[i]);
    }
  }

  lemma CursorOrder(p: Bytes, before: Option<Id16>, k: Bytes)
    requires |p| == 39
    ensures p <= k && before.Some? ==> (LexLess(k, p + before.value) <==> LexLess(k[39..], before.value))
  {
    if p <= k && before.Some? {
      assert k == p + k[39..];
      LexSplit(p, k[39..], p, before.value);
      LexTotal(p, p);
    }
  }

  lemma HistoryChain(data: Chains, c: ConversationId, k: nat)
    requires WellKeyed(data) && k >= 1
    ensures var s := Messages(data, c);
      Descending(IdOf, Reversed(s)) && Chain(LaterId, IdOf, s, None, k) == Split(Reversed(s), k)
  {
    var s := Messages(data, c);
    MessagesAscend(data, c);
    SortReverses(s);
    LaterIdTotal();
    var d := Reversed(s);
    BelowNone(IdOf, d);
    assert d[0..] == d;
    ChainIsSplit(LaterId, IdOf, s, None, k, 0);
  }

  /** Chaining `history` by the last returned id, with any page size, yields every message of
      the conversation exactly once in strictly descending id, in ceil(n / k) pages. */
  lemma HistoryComplete(data: Chains, c: ConversationId, k: nat)
    requires WellKeyed(data) && k >= 1
    ensures var s := Messages(data, c);
      Descending(IdOf, Reversed(s)) && PagesOf(Chain(LaterId, IdOf, s, None, k), Reversed(s), k)
  {
    HistoryChain(data, c, k);
    SplitIsPages(Reversed(Messages(data, c)), k);
  }

  /** Messages with later ids were not created earlier. */
  ghost predicate TimesFollowIds(s: seq<Message>) {
    forall a, b :: a in s && b in s && LexLess(a.id, b.id) ==> a.createdAtMs <= b.createdAtMs
  }

  ghost predicate NewestFirst(s: seq<Message>) {
    forall i, j :: 0 <= i < j < |s| ==> s[i].createdAtMs >= s[j].createdAtMs
  }

  lemma NewestFirstIff(s: seq<Message>)
    requires AscendingIds(s)
    ensures NewestFirst(Reversed(s)) <==> TimesFollowIds(s)
  {
    var n := |s| - 1;
    if NewestFirst(Reversed(s)) {
      forall a, b | a in s && b in s && LexLess(a.id, b.id) ensures a.createdAtMs <= b.createdAtMs {
        var i :| 0 <= i < |s| && s[i] == a;
        var j :| 0 <= j < |s| && s[j] == b;
        LexTotal(a.id, b.id);
        assert i < j;
        assert Reversed(s)[n - j] == b && Reversed(s)[n - i] == a;
      }
    }
    if TimesFollowIds(s) {
      forall i, j | 0 <= i < j < |s| ensures Reversed(s)[i].createdAtMs >= Reversed(s)[j].createdAtMs {
        assert LexLess(s[n - j].id, s[n - i].id);
      }
    }
  }

  /** The documentation promises descending creation time. The pages, read one after the other,
      have it exactly when creation times follow ids. */
  lemma HistoryByTimeIff(data: Chains, c: ConversationId)
    requires WellKeyed(data)
    ensures var s := Messages(data, c);
      TimesFollowIds(s) <==>
      forall k: nat {:trigger Chain(LaterId, IdOf, s, None, k)} :: k >= 1 ==> NewestFirst(Concat(Chain(LaterId, IdOf, s, None, k)))
  {
    var s := Messages(data, c);
    MessagesAscend(data, c);
    NewestFirstIff(s);
    if TimesFollowIds(s) {
      forall k: nat | k >= 1 ensures NewestFirst(Concat(Chain(LaterId, IdOf, s, None, k))) {
        HistoryComplete(data, c, k);
        assert Concat(Chain(LaterId, IdOf, s, None, k)) == Reversed(s);
      }
    } else {
      HistoryComplete(data, c, 1);
      assert Concat(Chain(LaterId, IdOf, s, None, 1)) == Reversed(s);
      assert !NewestFirst(Concat(Chain(LaterId, IdOf, s, None, 1)));
    }
  }

  /** A message created at `at`, as far as listings look at it. */
  function Stamped(c: ConversationId, id: Id16, at: U64): Message {
    Message(id, c, id, id, [], Sent, at, at)
  }

  /** Two messages sent by clocks that disagree: the later id carries the earlier time. */
  function Skewed(c: ConversationId, x: Id16, y: Id16): Chains {
    map[MessageKey(c, x) := MessageRecord(Stamped(c, x, 1)), MessageKey(c, y) := MessageRecord(Stamped(c, y, 0))]
  }

  /** Creation times need not follow ids; then paging is not in descending time. */
  lemma SkewedHistory(c: ConversationId, x: Id16, y: Id16)
    requires LexLess(x, y)
    ensures WellKeyed(Skewed(c, x, y))
    ensures var s := Messages(Skewed(c, x, y), c);
      && Stamped(c, x, 1) in s && Stamped(c, y, 0) in s
      && exists k: nat :: k >= 1 && !NewestFirst(Concat(Chain(LaterId, IdOf, s, None, k)))
  {
    var data := Skewed(c, x, y);
    LexTotal(x, y);
    assert MessageKey(c, x)[39..] == x && MessageKey(c, y)[39..] == y;
    MessagesAscend(data, c);
    HistoryByTimeIff(data, c);
  }

  /** What `update_status` does to the store. */
  ghost function StatusUpdated(data: Chains, c: ConversationId, id: Id16, status: MessageStatus, now: U64): Chains {
    var key := MessageKey(c, id);
    if key in data && data[key].MessageRecord? && Rank(status) > Rank(data[key].message.status)
    then data[key := MessageRecord(data[key].message.(status := status, statusUpdatedAtMs := now))]
    else data
  }

  datatype Receipt = Receipt(conversationId: ConversationId, messageId: Id16, status: MessageStatus, at: U64)

  ghost function RunReceipts(data: Chains, receipts: seq<Receipt>): Chains {
    if receipts == [] then data else
      var r := receipts[|receipts| - 1];
      StatusUpdated(RunReceipts(data, receipts[..|receipts| - 1]), r.conversationId, r.messageId, r.status, r.at)
  }

  ghost function RanksFor(receipts: seq<Receipt>, key: Bytes): seq<nat> {
    if receipts == [] then [] else
      var r := receipts[|receipts| - 1];
      RanksFor(receipts[..|receipts| - 1], key)
      + if MessageKey(r.conversationId, r.messageId) == key then [Rank(r.status)] else []
  }

  /** After any receipts every record is where it was, and each message's status is the furthest
      of its own and those of the receipts for it; nothing else of the message changes but the
      time of the change. */
  lemma {:induction false} ReceiptsJoin(data: Chains, receipts: seq<Receipt>, key: Bytes)
    ensures key in RunReceipts(data, receipts) <==> key in data
    ensures key in data && data[key].ConversationRecord? ==> RunReceipts(data, receipts)[key] == data[key]
    ensures key in data && data[key].MessageRecord? ==>
      && RunReceipts(data, receipts)[key].MessageRecord?
      && var m, m' := data[key].message, RunReceipts(data, receipts)[key].message;
        && Rank(m'.status) == AdvanceAll(Rank(m.status), RanksFor(receipts, key))
        && m'.(status := m.status, statusUpdatedAtMs := m.statusUpdatedAtMs) == m
        && (m'.status == m.status ==> m' == m)
  {
    if receipts == [] {
    } else {
      var before := receipts[..|receipts| - 1];
      ReceiptsJoin(data, before, key);
      if key in data && data[key].MessageRecord? {
        AdvanceAllIsMax(Rank(data[key].message.status), RanksFor(before, key));
        var ranks := RanksFor(receipts, key);
        if |ranks| > |RanksFor(before, key)| {
          assert ranks[..|ranks| - 1] == RanksFor(before, key);
        } else {
          assert ranks == RanksFor(before, key);
        }
      }
    }
  }

  /** The six ways forward. */
  ghost predicate Forward(s: MessageStatus, t: MessageStatus) {
    match s
    case Queued => t == Sent || t == Delivered || t == Read
    case Sent => t == Delivered || t == Read
    case Delivered => t == Read
    case Read => false
  }

  lemma ForwardIff(s: MessageStatus, t: MessageStatus)
    ensures Forward(s, t) <==> Rank(t) > Rank(s)
  {
  }

  ghost predicate IsFor(r: Receipt, key: Bytes) {
    MessageKey(r.conversationId, r.messageId) == key
  }

  /** After any receipts for it a message has the furthest status of its own and theirs. If that is
      not its own, a receipt brought it, at the time the message then carries. */
  ghost predicate Furthest(receipts: seq<Receipt>, key: Bytes, m: Message, m': Message) {
    && !Forward(m'.status, m.status)
    && (forall r :: r in receipts && IsFor(r, key) ==> !Forward(m'.status, r.status))
    && (m' == m || exists r :: r in receipts && IsFor(r, key) && m' == m.(status := r.status, statusUpdatedAtMs := r.at))
  }

  lemma {:induction false} ReceiptsFurthest(data: Chains, receipts: seq<Receipt>, key: Bytes)
    requires key in data && data[key].MessageRecord?
    ensures key in RunReceipts(data, receipts) && RunReceipts(data, receipts)[key].MessageRecord?
    ensures Furthest(receipts, key, data[key].message, RunReceipts(data, receipts)[key].message)
  {
    if receipts == [] {
    } else {
      var before, last := receipts[..|receipts| - 1], receipts[|receipts| - 1];
      ReceiptsFurthest(data, before, key);
      FurthestStep(before, last, key, data[key].message, RunReceipts(data, before)[key].message, RunReceipts(data, receipts)[key].message);
      assert receipts == before + [last];
    }
  }

  lemma FurthestStep(before: seq<Receipt>, last: Receipt, key: Bytes, m: Message, m': Message, m'': Message)
    requires Furthest(before, key, m, m')
    requires m'' == if IsFor(last, key) && Rank(last.status) > Rank(m'.status) then m'.(status := last.status, statusUpdatedAtMs := last.at) else m'
    ensures Furthest(before + [last], key, m, m'')
  {
    ForwardIff(m'.status, last.status);
    assert last in before + [last];
    if m'' == m' {
      if m' != m {
        var r :| r in before && IsFor(r, key) && m' == m.(status := r.status, statusUpdatedAtMs := r.at);
        assert r in before + [last];
      }
    } else {
      assert m'' == m.(status := last.status, statusUpdatedAtMs := last.at);
    }
  }

  /** So a Read receipt makes Read final, and without one a Delivered receipt takes a message that
      was Queued or Sent to Delivered. */
  lemma {:induction false} ReadIsFinal(data: Chains, receipts: seq<Receipt>, key: Bytes)
    requires key in data && data[key].MessageRecord?
    ensures key in RunReceipts(data, receipts) && RunReceipts(data, receipts)[key].MessageRecord?
    ensures var start, end := data[key].message.status, RunReceipts(data, receipts)[key].message.status;
      var brings := (t: MessageStatus) => exists r :: r in receipts && IsFor(r, key) && r.status == t;
      && (end == Read <==> start == Read || brings(Read))
      && (end == Delivered <==> !brings(Read) && (start == Delivered || (start in {Queued, Sent} && brings(Delivered))))
      && (end == Sent <==> !brings(Read) && !brings(Delivered) && (start == Sent || (start == Queued && brings(Sent))))
  {
    ReceiptsFurthest(data, receipts, key);
  }

  lemma {:induction false} RanksForMembers(receipts: seq<Receipt>, key: Bytes, rank: nat)
    ensures rank in RanksFor(receipts, key) <==>
      exists r :: r in receipts && MessageKey(r.conversationId, r.messageId) == key && Rank(r.status) == rank
  {
    if receipts == [] {
    } else {
      var before, last := receipts[..|receipts| - 1], receipts[|receipts| - 1];
      RanksForMembers(before, key, rank);
      assert forall r :: r in receipts <==> r in before || r == last;
    }
  }

  ghost function StatusAt(data: Chains, key: Bytes): Option<MessageStatus> {
    if key in data && data[key].MessageRecord? then Some(data[key].message.status) else None
  }

  /** Reordering, repeating or batching receipts differently leaves the same statuses. */
  lemma ReceiptOrderIrrelevant(data: Chains, a: seq<Receipt>, b: seq<Receipt>, key: Bytes)
    requires forall r :: r in a <==> r in b
    ensures StatusAt(RunReceipts(data, a), key) == StatusAt(RunReceipts(data, b), key)
  {
    ReceiptsJoin(data, a, key);
    ReceiptsJoin(data, b, key);
    if key in data && data[key].MessageRecord? {
      forall rank ensures rank in RanksFor(a, key) <==> rank in RanksFor(b, key) {
        RanksForMembers(a, key, rank);
        RanksForMembers(b, key, rank);
      }
      OrderIrrelevant(Rank(data[key].message.status), RanksFor(a, key), RanksFor(b, key));
    }
  }
}
