/** The group operations over the groups column family. */
module GroupService {
  import opened ByteStrings
  import opened Wrappers
  import opened OrderedStore
  import opened StableSorting
  import opened Paging
  import opened GroupPermissions
  import opened GroupManifest
  import opened GroupState
  import opened GroupMessages

  /** What a lifecycle call does to the store: commits the changed manifest, or nothing at all. */
  ghost predicate Commits(before: Groups, after: Groups, group: Id16, call: Call, r: Result<(), GroupError>)
    requires group in before ==> before[group].ManifestRecord?
  {
    if group !in before then r == Err(GroupNotFound(group)) && after == before
    else
      match Apply(before[group].manifest, call)
      case Changed(man) => r.Ok? && after == before[group := ManifestRecord(man)]
      case Unchanged => r.Ok? && after == before
      case Failed(e) => r == Err(e) && after == before
  }

  /** The same by the roles of caller and target: which calls succeed, which of them change nothing,
      and which failure comes from what. */
  ghost predicate Judged(before: Groups, after: Groups, group: Id16, call: Call, r: Result<(), GroupError>)
    requires group in before ==> before[group].ManifestRecord?
  {
    && (r.Ok? <==> group in before && (Grants(before[group].manifest, call) || Repeats(before[group].manifest, call)))
    && (forall e :: r == Err(e) <==> if group in before then Refuses(before[group].manifest, call, e) else e == GroupNotFound(group))
    && (r.Err? || Repeats(before[group].manifest, call) ==> after == before)
  }

  lemma JudgedByRoles(before: Groups, group: Id16, call: Call)
    requires group in before ==> before[group].ManifestRecord?
    ensures forall after, r :: Commits(before, after, group, call, r) ==> Judged(before, after, group, call, r)
  {
    if group in before {
      AuthorityIff(before[group].manifest, call);
      UnchangedIff(before[group].manifest, call);
      forall e ensures Apply(before[group].manifest, call) == Failed(e) <==> Refuses(before[group].manifest, call, e) {
        FailedIff(before[group].manifest, call, e);
      }
    }
  }

  /** The stored message takes the status exactly if that is a step forward; otherwise nothing changes. */
  ghost predicate MovesForward(before: Groups, after: Groups, key: Bytes, status: GroupMessageStatus, updated: bool) {
    && (updated <==> key in before && before[key].MessageRecord? && Forward(before[key].message.status, status))
    && (updated ==> after == before[key := MessageRecord(before[key].message.(status := status))])
    && (!updated ==> after == before)
  }

  lemma GroupKeyHoldsManifest(group: Id16, r: GroupRecord)
    requires KeyOf(r) == group
    ensures r.ManifestRecord? && r.manifest.groupId == group
  {
  }

  class GroupStore {
    const db: ColumnFamily<GroupRecord>

    constructor (db: ColumnFamily<GroupRecord>)
      ensures this.db == db
    {
      this.db := db;
    }

    ghost predicate Valid()
      reads db
    {
      && WellKeyed(db.data)
      && forall g: Id16 :: g in db.data ==> db.data[g].ManifestRecord?
    }

    method GetManifest(group: Id16) returns (r: Result<GroupManifest, GroupError>)
      requires Valid()
      ensures r == if group in db.data then Ok(db.data[group].manifest) else Err(GroupNotFound(group))
      ensures r.Ok? ==> r.value.groupId == group
    {
      var found := db.Get(group);
      if found.None? {
        return Err(GroupNotFound(group));
      }
      GroupKeyHoldsManifest(group, found.value);
      return Ok(found.value.manifest);
    }

    method PutManifest(man: GroupManifest)
      requires Valid()
      modifies db
      ensures Valid() && db.data == old(db.data)[man.groupId := ManifestRecord(man)]
    {
      db.Put(man.groupId, ManifestRecord(man));
    }

    /** Creates a group under a fresh id; every founder listed becomes an owner entry. */
    method CreateGroup(group: Id16, title: Bytes, founders: seq<Id16>, now: U64) returns (r: Result<Id16, GroupError>)
      requires Valid()
      modifies db
      ensures Valid()
      ensures |title| > MAX_NAME ==> r == Err(NameTooLong(|title|)) && db.data == old(db.data)
      ensures |title| <= MAX_NAME ==> r == Ok(group)
      ensures |title| <= MAX_NAME ==> db.data == old(db.data)[group := ManifestRecord(Created(group, title, founders, now).value)]
      ensures |title| <= MAX_NAME ==> NewGroup(db.data[group].manifest, group, title, founders, now)
    {
      CreatedIsNew(group, title, founders, now);
      if |title| > MAX_NAME {
        return Err(NameTooLong(|title|));
      }
      var members := [];
      var i := 0;
      while i < |founders|
        invariant 0 <= i <= |founders|
        invariant members + Founders(founders[i..], now) == Founders(founders, now)
      {
        members := members + [GroupMember(founders[i], NO_MACHINE, Owner, now)];
        i := i + 1;
      }
      assert members == Founders(founders, now);
      var creator := if founders == [] then NO_MACHINE else founders[0];
      var man := Normalized(GroupManifest(group, title, creator, members, 0, [], now, now));
      PutManifest(man);
      return Ok(group);
    }

    method Promote(group: Id16, caller: Id16, target: Id16, role: Role, now: U64) returns (r: Result<(), GroupError>)
      requires Valid()
      modifies db
      ensures Valid() && Commits(old(db.data), db.data, group, Call(caller, Action.Promote(target, role), now), r)
      ensures Judged(old(db.data), db.data, group, Call(caller, Action.Promote(target, role), now), r)
    {
      JudgedByRoles(db.data, group, Call(caller, Action.Promote(target, role), now));
      var man :- GetManifest(group);
      var callerMember := Find(man.members, caller);
      if callerMember.None? {
        return Err(NotAMember(caller));
      }
      var targetMember := Find(man.members, target);
      if targetMember.None? {
        return Err(NotAMember(target));
      }
      if Privilege(role) >= Privilege(targetMember.value.role) {
        return Err(InvalidManifestUpdate);
      }
      var action := ActionForRoleChange(role);
      if !CheckPermission(callerMember.value.role, action, Some(targetMember.value.role)) {
        return Err(PermissionDenied(callerMember.value.role, action));
      }
      man := man.(members := SetRole(man.members, target, role));
      man := man.(mlsEpoch := Bumped(man.mlsEpoch), updatedAtMs := now);
      PutManifest(Normalized(man));
      return Ok(());
    }

    method Demote(group: Id16, caller: Id16, target: Id16, role: Role, now: U64) returns (r: Result<(), GroupError>)
      requires Valid()
      modifies db
      ensures Valid() && Commits(old(db.data), db.data, group, Call(caller, Action.Demote(target, role), now), r)
      ensures Judged(old(db.data), db.data, group, Call(caller, Action.Demote(target, role), now), r)
    {
      JudgedByRoles(db.data, group, Call(caller, Action.Demote(target, role), now));
      var man :- GetManifest(group);
      var callerMember := Find(man.members, caller);
      if callerMember.None? {
        return Err(NotAMember(caller));
      }
      var targetMember := Find(man.members, target);
      if targetMember.None? {
        return Err(NotAMember(target));
      }
      if Privilege(role) <= Privilege(targetMember.value.role) {
        return Err(InvalidManifestUpdate);
      }
      var action := ActionForRoleChange(targetMember.value.role);
      if !CheckPermission(callerMember.value.role, action, Some(targetMember.value.role)) {
        return Err(PermissionDenied(callerMember.value.role, action));
      }
      man := man.(members := SetRole(man.members, target, role));
      man := man.(mlsEpoch := Bumped(man.mlsEpoch), updatedAtMs := now);
      PutManifest(Normalized(man));
      return Ok(());
    }

    method AddMember(group: Id16, caller: Id16, newMember: Id16, addedAt: U64, now: U64) returns (r: Result<(), GroupError>)
      requires Valid()
      modifies db
      ensures Valid() && Commits(old(db.data), db.data, group, Call(caller, Action.Add(newMember, addedAt), now), r)
      ensures Judged(old(db.data), db.data, group, Call(caller, Action.Add(newMember, addedAt), now), r)
    {
      JudgedByRoles(db.data, group, Call(caller, Action.Add(newMember, addedAt), now));
      var man :- GetManifest(group);
      var callerMember := Find(man.members, caller);
      if callerMember.None? {
        return Err(NotAMember(caller));
      }
      if !CheckPermission(callerMember.value.role, GroupAction.AddMember, None) {
        return Err(PermissionDenied(callerMember.value.role, GroupAction.AddMember));
      }
      if Find(man.members, newMember).Some? {
        return Ok(());
      }
      if |man.members| >= MAX_GROUP_SIZE {
        return Err(GroupFull(|man.members|));
      }
      man := man.(members := man.members + [GroupMember(newMember, NO_MACHINE, Member, addedAt)]);
      man := man.(mlsEpoch := Bumped(man.mlsEpoch), updatedAtMs := now);
      PutManifest(Normalized(man));
      return Ok(());
    }

    method RemoveMember(group: Id16, caller: Id16, target: Id16, now: U64) returns (r: Result<(), GroupError>)
      requires Valid()
      modifies db
      ensures Valid() && Commits(old(db.data), db.data, group, Call(caller, Action.Remove(target), now), r)
      ensures Judged(old(db.data), db.data, group, Call(caller, Action.Remove(target), now), r)
    {
      JudgedByRoles(db.data, group, Call(caller, Action.Remove(target), now));
      var man :- GetManifest(group);
      var callerMember := Find(man.members, caller);
      if callerMember.None? {
        return Err(NotAMember(caller));
      }
      var targetMember := Find(man.members, target);
      if targetMember.None? {
        return Err(NotAMember(target));
      }
      var role := callerMember.value.role;
      if !CheckPermission(role, GroupAction.RemoveMember, Some(targetMember.value.role)) {
        return Err(PermissionDenied(role, GroupAction.RemoveMember));
      }
      if role != Owner && Privilege(role) >= Privilege(targetMember.value.role) {
        return Err(PermissionDenied(role, GroupAction.RemoveMember));
      }
      man := man.(members := Without(man.members, target));
      man := man.(mlsEpoch := Bumped(man.mlsEpoch), updatedAtMs := now);
      PutManifest(Normalized(man));
      return Ok(());
    }

    /** Stores a member's message under a fresh id, stamped with the group's epoch. */
    method SendMessage(group: Id16, sender: Id16, machine: Id16, text: Bytes, id: Id16, now: U64) returns (r: Result<Id16, GroupError>)
      requires Valid()
      modifies db
      ensures Valid()
      ensures group !in old(db.data) ==> r == Err(GroupNotFound(group)) && db.data == old(db.data)
      ensures group in old(db.data) ==>
        var man := old(db.data)[group].manifest;
        if Find(man.members, sender).None? then r == Err(NotAMember(sender)) && db.data == old(db.data)
        else r == Ok(id) && db.data == old(db.data)[MessageKey(group, id) :=
          MessageRecord(GroupMessage(id, group, sender, machine, text, man.mlsEpoch, now, Sent))]
    {
      var man :- GetManifest(group);
      if Find(man.members, sender).None? {
        return Err(NotAMember(sender));
      }
      db.Put(MessageKey(group, id), MessageRecord(GroupMessage(id, group, sender, machine, text, man.mlsEpoch, now, Sent)));
      return Ok(id);
    }

    /** Stores an inbound message unless its id is already there. */
    method ReceiveMessage(m: GroupMessage) returns (r: Result<bool, GroupError>)
      requires Valid()
      modifies db
      ensures Valid() && db.data == RunEvents(old(db.data), [Receive(m)])
      ensures r == if m.groupId in old(db.data) then Ok(MessageKey(m.groupId, m.id) !in old(db.data)) else Err(GroupNotFound(m.groupId))
      ensures db.data == if r == Ok(true) then old(db.data)[MessageKey(m.groupId, m.id) := MessageRecord(m)] else old(db.data)
    {
      assert RunEvents(old(db.data), [Receive(m)][..0]) == old(db.data);
      var _ :- GetManifest(m.groupId);
      var key := MessageKey(m.groupId, m.id);
      var found := db.Get(key);
      if found.Some? {
        return Ok(false);
      }
      db.Put(key, MessageRecord(m));
      return Ok(true);
    }

    /** One page of the group's messages below the cursor, newest creation time first. */
    method ListMessages(group: Id16, before: Option<Id16>, limit: nat) returns (messages: seq<GroupMessage>)
      requires Valid()
      ensures messages == ListPage(db.data, group, before, limit)
    {
      var prefix := MessagePrefix(group);
      var keys := db.IterFrom(prefix);
      ghost var all := Messages(db.data, group);
      messages := [];
      ghost var read: seq<GroupMessage> := [];
      var i := 0;
      while i < |keys|
        invariant 0 <= i <= |keys| && |read| == i
        invariant forall j :: 0 <= j < i ==> prefix <= keys[j]
        invariant forall j :: 0 <= j < i ==> db.data[keys[j]] == MessageRecord(read[j])
        invariant messages == Below(IdOf, read, before)
      {
        var k := keys[i];
        if !(prefix <= k) {
          break;
        }
        MessagePrefixIff(group, db.data[k]);
        var m := db.data[k].message;
        BelowAppend(read, m, before);
        read := read + [m];
        i := i + 1;
        if before.Some? && !LexLess(m.id, before.value) {
          continue;
        }
        messages := messages + [m];
      }
      ScanIsExact(db.data.Keys, prefix, i);
      assert read == all;
      messages := Take(Sort(NewerFirst, messages), limit);
    }

    /** Applies a receipt when it is strictly ahead of the stored status; says whether it was. */
    method ProcessReceipt(group: Id16, id: Id16, status: GroupMessageStatus) returns (updated: bool)
      requires Valid()
      modifies db
      ensures Valid() && db.data == RunEvents(old(db.data), [Receipt(group, id, status)])
      ensures updated <==> db.data != old(db.data)
      ensures MovesForward(old(db.data), db.data, MessageKey(group, id), status, updated)
    {
      assert RunEvents(old(db.data), [Receipt(group, id, status)][..0]) == old(db.data);
      var key := MessageKey(group, id);
      var found := db.Get(key);
      if found.None? {
        return false;
      }
      MessageKeyHoldsMessage(group, id, found.value);
      var m := found.value.message;
      ForwardIff(m.status, status);
      if !(Rank(status) > Rank(m.status)) {
        return false;
      }
      db.Put(key, MessageRecord(m.(status := status)));
      assert db.data[key] != old(db.data)[key];
      return true;
    }
  }

  lemma {:induction false} BelowAppend(s: seq<GroupMessage>, m: GroupMessage, before: Option<Id16>)
    ensures Below(IdOf, s + [m], before) == Below(IdOf, s, before) + if Passes(m.id, before) then [m] else []
  {
    if s == [] {
      assert [] + [m] == [m] && [m][1..] == [];
    } else {
      assert (s + [m])[1..] == s[1..] + [m];
      BelowAppend(s[1..], m, before);
    }
  }
}
