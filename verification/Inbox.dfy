/** The inbox: one index entry per conversation, kept in newest-first key order. */
module Inbox {
  import opened ByteStrings
  import opened OrderedStore
  import opened InboxIndex

  datatype ConversationKind = Dm | Group

  datatype InboxEntry = InboxEntry(
    conversationId: ConversationId,
    kind: ConversationKind,
    lastTs: U64,
    unread: U32,
    previewSender: Id16,
    preview: Bytes)

  datatype InboxStats = InboxStats(totalUnread: nat, conversationCount: nat)

  type Index = map<Bytes, InboxEntry>

  /** What the index is meant to be for its owner: the latest entry of each conversation. */
  type Conversations = map<ConversationId, InboxEntry>

  function KeyOf(o: Owner, e: InboxEntry): Bytes {
    InboxKey(o, e.lastTs, e.conversationId)
  }

  /** The owner's keys are exactly the keys of the conversations' entries. */
  ghost predicate Represents(data: Index, o: Owner, m: Conversations) {
    && (forall c :: c in m ==> m[c].conversationId == c && KeyOf(o, m[c]) in data && data[KeyOf(o, m[c])] == m[c])
    && (forall k :: k in data && OwnerPrefix(o) <= k ==>
          data[k].conversationId in m && m[data[k].conversationId] == data[k] && k == KeyOf(o, data[k]))
  }

  ghost function KeysOfConversation(data: Index, o: Owner, c: ConversationId): set<Bytes> {
    set k | k in data && OwnerPrefix(o) <= k && data[k].conversationId == c
  }

  ghost function Upserted(data: Index, o: Owner, e: InboxEntry): Index {
    (data - KeysOfConversation(data, o, e.conversationId))[KeyOf(o, e) := e]
  }

  ghost function MarkedRead(data: Index, o: Owner, c: ConversationId): Index {
    map k | k in data :: if k in KeysOfConversation(data, o, c) then data[k].(unread := 0) else data[k]
  }

  lemma UpsertRepresents(data: Index, o: Owner, m: Conversations, e: InboxEntry)
    requires Represents(data, o, m)
    ensures Represents(Upserted(data, o, e), o, m[e.conversationId := e])
  {
    var m', data' := m[e.conversationId := e], Upserted(data, o, e);
    assert OwnerPrefix(o) <= KeyOf(o, e);
    forall c | c in m' ensures KeyOf(o, m'[c]) in data' && data'[KeyOf(o, m'[c])] == m'[c] {
      if c != e.conversationId && KeyOf(o, m[c]) == KeyOf(o, e) {
        DecodeInvertsEncode(o, m[c].lastTs, c);
        DecodeInvertsEncode(o, e.lastTs, e.conversationId);
      }
    }
  }

  lemma MarkReadRepresents(data: Index, o: Owner, m: Conversations, c: ConversationId)
    requires Represents(data, o, m)
    ensures Represents(MarkedRead(data, o, c), o, if c in m then m[c := m[c].(unread := 0)] else m)
  {
    forall c' | c' in m ensures OwnerPrefix(o) <= KeyOf(o, m[c']) {
      OwnerMatchesIff(o, o, m[c'].lastTs, c');
    }
  }

  /** One owner's writes leave every other owner's view as it was. */
  lemma OthersUntouched(data: Index, o: Owner, o': Owner, m': Conversations, e: InboxEntry, c: ConversationId)
    requires o != o' && Represents(data, o', m')
    ensures Represents(Upserted(data, o, e), o', m')
    ensures Represents(MarkedRead(data, o, c), o', m')
  {
    OwnerMatchesIff(o', o, e.lastTs, e.conversationId);
    forall x | x in m' ensures !(OwnerPrefix(o) <= KeyOf(o', m'[x])) {
      OwnerMatchesIff(o, o', m'[x].lastTs, x);
    }
    forall k | k in data && OwnerPrefix(o') <= k ensures !(OwnerPrefix(o) <= k) {
      OwnerMatchesIff(o, o', data[k].lastTs, data[k].conversationId);
    }
    forall x | x in m' ensures KeyOf(o', m'[x]) != KeyOf(o, e) {
      OwnerMatchesIff(o', o', m'[x].lastTs, x);
    }
  }

  datatype Op = Upsert(entry: InboxEntry) | MarkRead(conversation: ConversationId)

  ghost function RunStore(ops: seq<(Owner, Op)>): Index {
    if ops == [] then map[] else
      var data := RunStore(ops[..|ops| - 1]);
      var (o, op) := ops[|ops| - 1];
      match op
      case Upsert(e) => Upserted(data, o, e)
      case MarkRead(c) => MarkedRead(data, o, c)
  }

  /** Last write wins per conversation, over one owner's operations only. */
  ghost function RunOwner(ops: seq<(Owner, Op)>, o: Owner): Conversations {
    if ops == [] then map[] else
      var m := RunOwner(ops[..|ops| - 1], o);
      var (o', op) := ops[|ops| - 1];
      if o' != o then m else
        match op
        case Upsert(e) => m[e.conversationId := e]
        case MarkRead(c) => if c in m then m[c := m[c].(unread := 0)] else m
  }

  /** After any interleaving of any owners' operations each owner's part of the store is that
      owner's own last-write-wins map. */
  lemma {:induction false} RunRefinesMaps(ops: seq<(Owner, Op)>, o: Owner)
    ensures Represents(RunStore(ops), o, RunOwner(ops, o))
  {
    if ops == [] {
    } else {
      var before := ops[..|ops| - 1];
      var (o', op) := ops[|ops| - 1];
      RunRefinesMaps(before, o);
      var data, m := RunStore(before), RunOwner(before, o);
      match op {
        case Upsert(e) =>
          if o' == o { UpsertRepresents(data, o, m, e); }
          else { OthersUntouched(data, o', o, m, e, e.conversationId); }
        case MarkRead(c) =>
          if o' == o { MarkReadRepresents(data, o, m, c); }
          else {
            var e := InboxEntry(c, Dm, 0, 0, o.identity, []);
            OthersUntouched(data, o', o, m, e, c);
          }
      }
    }
  }

  ghost function Listed(data: Index, o: Owner): seq<InboxEntry> {
    var pairs := Scan(data, OwnerPrefix(o));
    seq(|pairs|, i requires 0 <= i < |pairs| => pairs[i].1)
  }

  predicate NewerThan(a: InboxEntry, b: InboxEntry) {
    a.lastTs > b.lastTs || (a.lastTs == b.lastTs && LexLess(a.conversationId, b.conversationId))
  }

  /** `s` lists the entry of every conversation of `m`, newest first, ties by conversation id. */
  ghost predicate NewestFirst(s: seq<InboxEntry>, m: Conversations) {
    && |s| == |m|
    && (forall i :: 0 <= i < |s| ==> s[i].conversationId in m && m[s[i].conversationId] == s[i])
    && (forall i, j :: 0 <= i < j < |s| ==> NewerThan(s[i], s[j]))
  }

  lemma {:induction false} InjectiveSize<A, B>(f: map<A, B>)
    requires forall a, b :: a in f && b in f && f[a] == f[b] ==> a == b
    ensures |f.Values| == |f|
    decreases |f|
  {
    if f == map[] {
    } else {
      var a :| a in f;
      var rest := f - {a};
      InjectiveSize(rest);
      forall b ensures b in f.Values <==> b in rest.Values || b == f[a] {
        if b in f.Values && b != f[a] {
          var x :| x in f && f[x] == b;
          assert x in rest && rest[x] == b;
        }
        if b in rest.Values {
          var x :| x in rest && rest[x] == b;
          assert f[x] == b;
        }
      }
      assert f.Values == rest.Values + {f[a]};
    }
  }

  ghost function ConversationKeys(o: Owner, m: Conversations): map<ConversationId, Bytes> {
    map c | c in m :: KeyOf(o, m[c])
  }

  lemma ConversationKeysSize(o: Owner, m: Conversations)
    requires forall c :: c in m ==> m[c].conversationId == c
    ensures |ConversationKeys(o, m).Values| == |m|
  {
    var f := ConversationKeys(o, m);
    forall a, b | a in f && b in f && f[a] == f[b] ensures a == b {
      DecodeInvertsEncode(o, m[a].lastTs, a);
      DecodeInvertsEncode(o, m[b].lastTs, b);
    }
    InjectiveSize(f);
    assert f.Keys == m.Keys;
  }

  lemma ListedNewestFirst(data: Index, o: Owner, m: Conversations)
    requires Represents(data, o, m)
    ensures NewestFirst(Listed(data, o), m)
  {
    var keys, s := KeysWithPrefix(data.Keys, OwnerPrefix(o)), Listed(data, o);
    PrefixKeys(data.Keys, OwnerPrefix(o));
    forall i | 0 <= i < |s| ensures keys[i] in data && s[i] == data[keys[i]] && keys[i] == KeyOf(o, s[i]) {
      assert keys[i] in keys;
    }
    forall i, j | 0 <= i < j < |s| ensures NewerThan(s[i], s[j]) {
      KeyOrder(o, s[i].lastTs, s[i].conversationId, s[j].lastTs, s[j].conversationId);
    }
    forall c | c in m ensures OwnerPrefix(o) <= KeyOf(o, m[c]) {
      OwnerMatchesIff(o, o, m[c].lastTs, c);
    }
    var found := set k | k in data.Keys && OwnerPrefix(o) <= k;
    assert found == ConversationKeys(o, m).Values by {
      forall k | k in found ensures k in ConversationKeys(o, m).Values {
        assert ConversationKeys(o, m)[data[k].conversationId] == k;
      }
    }
    ConversationKeysSize(o, m);
  }

  lemma TailLists(s: seq<InboxEntry>, m: Conversations)
    requires NewestFirst(s, m) && s != []
    ensures NewestFirst(s[1..], m - {s[0].conversationId})
  {
    forall i | 0 <= i < |s[1..]| ensures s[1..][i].conversationId != s[0].conversationId {
      assert NewerThan(s[0], s[i + 1]);
      LexTotal(s[0].conversationId, s[0].conversationId);
    }
  }

  lemma {:induction false} ListsAll(s: seq<InboxEntry>, m: Conversations, c: ConversationId)
    requires NewestFirst(s, m) && c in m
    ensures exists i :: 0 <= i < |s| && s[i] == m[c]
  {
    if s[0].conversationId == c {
    } else {
      TailLists(s, m);
      ListsAll(s[1..], m - {s[0].conversationId}, c);
      var i :| 0 <= i < |s[1..]| && s[1..][i] == m[c];
      assert s[i + 1] == m[c];
    }
  }

  /** There is only one such listing, so a listing is fixed by the map. */
  lemma {:induction false} NewestFirstUnique(s: seq<InboxEntry>, t: seq<InboxEntry>, m: Conversations)
    requires NewestFirst(s, m) && NewestFirst(t, m)
    ensures s == t
  {
    if s == [] {
    } else {
      ListsAll(s, m, t[0].conversationId);
      ListsAll(t, m, s[0].conversationId);
      LexTotal(s[0].conversationId, t[0].conversationId);
      assert s[0] == t[0];
      TailLists(s, m);
      TailLists(t, m);
      NewestFirstUnique(s[1..], t[1..], m - {s[0].conversationId});
      assert s == [s[0]] + s[1..] && t == [t[0]] + t[1..];
    }
  }

  ghost function TotalUnread(m: Conversations): nat {
    if m == map[] then 0 else
      var c :| c in m;
      m[c].unread + TotalUnread(m - {c})
  }

  lemma {:induction false} TotalRemove(m: Conversations, c: ConversationId)
    requires c in m
    ensures TotalUnread(m) == m[c].unread + TotalUnread(m - {c})
    decreases |m|
  {
    var d :| d in m && TotalUnread(m) == m[d].unread + TotalUnread(m - {d});
    if c == d {
    } else {
      TotalRemove(m - {d}, c);
      TotalRemove(m - {c}, d);
      assert m - {d} - {c} == m - {c} - {d};
    }
  }

  ghost function SumUnread(s: seq<InboxEntry>): nat {
    if s == [] then 0 else SumUnread(s[..|s| - 1]) + s[|s| - 1].unread
  }

  lemma {:induction false} SumFromFront(s: seq<InboxEntry>)
    requires s != []
    ensures SumUnread(s) == s[0].unread + SumUnread(s[1..])
  {
    if |s| == 1 {
    } else {
      SumFromFront(s[..|s| - 1]);
      assert s[..|s| - 1][1..] == s[1..][..|s| - 2];
      assert s[1..][|s| - 2] == s[|s| - 1];
    }
  }

  lemma {:induction false} SumIsTotal(s: seq<InboxEntry>, m: Conversations)
    requires NewestFirst(s, m)
    ensures SumUnread(s) == TotalUnread(m)
    ensures TotalUnread(m) <= |m| * (U32_LIMIT - 1)
  {
    if s == [] {
    } else {
      TailLists(s, m);
      SumFromFront(s);
      TotalRemove(m, s[0].conversationId);
      SumIsTotal(s[1..], m - {s[0].conversationId});
    }
  }

  lemma ListedTotals(data: Index, o: Owner, m: Conversations)
    requires Represents(data, o, m)
    ensures |Listed(data, o)| == |m| && SumUnread(Listed(data, o)) == TotalUnread(m)
    ensures TotalUnread(m) <= |m| * (U32_LIMIT - 1)
  {
    ListedNewestFirst(data, o, m);
    SumIsTotal(Listed(data, o), m);
  }
}
