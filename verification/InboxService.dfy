/** The inbox service over its column family. Each method is told, as a ghost, the map its
    owner's part of the index represents, and says which map it represents afterwards. */
module InboxService {
  import opened ByteStrings
  import opened Wrappers
  import opened OrderedStore
  import opened InboxIndex
  import opened Inbox
  import opened Paging

  const DEFAULT_LIMIT: nat := 50

  class InboxService {
    const db: ColumnFamily<InboxEntry>
    const owner: Owner

    constructor (db: ColumnFamily<InboxEntry>, identity: Id16, machine: Id16)
      ensures this.db == db && this.owner == Owner(identity, machine)
    {
      this.db := db;
      this.owner := Owner(identity, machine);
    }

    method FindRawEntry(conv: ConversationId, ghost m: Conversations) returns (r: Option<(Bytes, InboxEntry)>)
      requires Represents(db.data, owner, m)
      ensures r == if conv in m then Some((KeyOf(owner, m[conv]), m[conv])) else None
    {
      var pairs := db.PrefixScan(OwnerPrefix(owner));
      ghost var keys := KeysWithPrefix(db.data.Keys, OwnerPrefix(owner));
      PrefixKeys(db.data.Keys, OwnerPrefix(owner));
      var i := 0;
      while i < |pairs|
        invariant 0 <= i <= |pairs|
        invariant forall j :: 0 <= j < i ==> pairs[j].1.conversationId != conv
      {
        var (key, entry) := pairs[i];
        assert key in keys;
        if entry.conversationId == conv {
          return Some((key, entry));
        }
        i := i + 1;
      }
      forall k | k in keys ensures db.data[k].conversationId != conv {
        var j :| 0 <= j < |keys| && keys[j] == k;
        assert pairs[j] == (k, db.data[k]);
      }
      assert conv in m ==> KeyOf(owner, m[conv]) in keys by {
        if conv in m {
          OwnerMatchesIff(owner, owner, m[conv].lastTs, conv);
        }
      }
      return None;
    }

    method Upsert(entry: InboxEntry, ghost m: Conversations)
      requires Represents(db.data, owner, m)
      modifies db
      ensures db.data == Upserted(old(db.data), owner, entry)
      ensures Represents(db.data, owner, m[entry.conversationId := entry])
    {
      UpsertRepresents(db.data, owner, m, entry);
      var found := FindRawEntry(entry.conversationId, m);
      assert KeysOfConversation(db.data, owner, entry.conversationId)
          == if found.Some? then {found.value.0} else {} by {
        if found.Some? {
          OwnerMatchesIff(owner, owner, found.value.1.lastTs, entry.conversationId);
        }
      }
      if found.Some? {
        db.Delete(found.value.0);
      }
      var key := EncodeKey(owner.identity, owner.machine, entry.lastTs, entry.conversationId);
      db.Put(key[..], entry);
    }

    /** Marks a conversation read; nothing happens when it is absent or already read. */
    method MarkRead(conv: ConversationId, ghost m: Conversations)
      requires Represents(db.data, owner, m)
      modifies db
      ensures db.data == MarkedRead(old(db.data), owner, conv)
      ensures Represents(db.data, owner, if conv in m then m[conv := m[conv].(unread := 0)] else m)
      ensures conv !in m || m[conv].unread == 0 ==> db.data == old(db.data)
    {
      MarkReadRepresents(db.data, owner, m, conv);
      var found := FindRawEntry(conv, m);
      assert KeysOfConversation(db.data, owner, conv) == if found.Some? then {found.value.0} else {} by {
        if found.Some? {
          OwnerMatchesIff(owner, owner, found.value.1.lastTs, conv);
        }
      }
      if found.Some? {
        var (oldKey, entry) := found.value;
        if entry.unread > 0 {
          db.Delete(oldKey);
          entry := entry.(unread := 0);
          var key := EncodeKey(owner.identity, owner.machine, entry.lastTs, entry.conversationId);
          db.Put(key[..], entry);
        }
      }
    }

    /** The newest `limit` conversations; 50 when no limit is given. */
    method ListInbox(limit: Option<nat>, ghost m: Conversations) returns (entries: seq<InboxEntry>)
      requires Represents(db.data, owner, m)
      ensures entries == Take(Listed(db.data, owner), if limit.Some? then limit.value else DEFAULT_LIMIT)
      ensures NewestFirst(Listed(db.data, owner), m)
    {
      ghost var listed := Listed(db.data, owner);
      assert NewestFirst(listed, m) by {
        ListedNewestFirst(db.data, owner, m);
      }
      var n := if limit.Some? then limit.value else DEFAULT_LIMIT;
      var pairs := db.PrefixScan(OwnerPrefix(owner));
      entries := [];
      var i := 0;
      while i < |pairs|
        invariant 0 <= i <= |pairs| && i <= n && |entries| == i
        invariant entries == listed[..i]
      {
        if |entries| >= n {
          break;
        }
        assert pairs[i].1 == listed[i];
        assert listed[..i + 1] == listed[..i] + [listed[i]];
        entries := entries + [pairs[i].1];
        i := i + 1;
      }
      assert listed[..|listed|] == listed;
    }

    method UnreadTotal(ghost m: Conversations) returns (total: nat)
      requires Represents(db.data, owner, m)
      ensures total == TotalUnread(m)
      ensures total <= |m| * (U32_LIMIT - 1)
    {
      ListedTotals(db.data, owner, m);
      var pairs := db.PrefixScan(OwnerPrefix(owner));
      ghost var listed := Listed(db.data, owner);
      total := 0;
      var i := 0;
      while i < |pairs|
        invariant 0 <= i <= |pairs|
        invariant total == SumUnread(listed[..i])
      {
        assert listed[..i + 1][..i] == listed[..i];
        total := total + pairs[i].1.unread;
        i := i + 1;
      }
      assert listed[..i] == listed;
    }

    method Stats(ghost m: Conversations) returns (stats: InboxStats)
      requires Represents(db.data, owner, m)
      ensures stats == InboxStats(TotalUnread(m), |m|)
    {
      ListedTotals(db.data, owner, m);
      var pairs := db.PrefixScan(OwnerPrefix(owner));
      ghost var listed := Listed(db.data, owner);
      var total, count := 0, 0;
      while count < |pairs|
        invariant 0 <= count <= |pairs|
        invariant total == SumUnread(listed[..count])
      {
        assert listed[..count + 1][..count] == listed[..count];
        total := total + pairs[count].1.unread;
        count := count + 1;
      }
      assert listed[..count] == listed;
      stats := InboxStats(total, count);
    }
  }
}
