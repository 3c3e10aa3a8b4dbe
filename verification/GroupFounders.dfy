/** Which founder lists keep a group safe from escalation: founders are neither deduplicated nor
    capped, and every entry but a repeated one's first escapes role changes. */
module GroupFounders {
  import opened ByteStrings
  import opened StableSorting
  import opened GroupPermissions
  import opened GroupManifest
  import opened GroupState

  /** From no state reachable from `man` do calls of non-owners change the owners and admins. */
  ghost predicate NeverEscalates(man: GroupManifest) {
    forall calls, later :: NoOwnerActs(Run(man, calls), later) ==>
      Privileged(Run(Run(man, calls), later).members) == Privileged(Run(man, calls).members)
  }

  /** One identity alone, in more entries than the group has places. */
  ghost predicate CrowdOfOne(founders: seq<Id16>) {
    |founders| >= MAX_GROUP_SIZE && forall f :: f in founders ==> f == founders[0]
  }

  lemma SetRoleSorted(s: seq<GroupMember>, id: Id16, to: Role)
    requires Sorted(ByIdentity, s)
    ensures Sorted(ByIdentity, SetRole(s, id, to))
  {
    SetRoleIdentities(s, id, to);
    var t := SetRole(s, id, to);
    forall i, j | 0 <= i < j < |t| ensures ByIdentity(t[i], t[j]) {
      assert ByIdentity(s[i], s[j]);
    }
  }

  lemma {:induction false} SetRoleFind(s: seq<GroupMember>, id: Id16, to: Role, other: Id16)
    ensures Find(s, id).Some? ==> Find(SetRole(s, id, to), id).Some? && Find(SetRole(s, id, to), id).value.role == to
    ensures other != id ==> Find(SetRole(s, id, to), other) == Find(s, other)
  {
    if s == [] {
    } else {
      SetRoleFind(s[1..], id, to, other);
    }
  }

  /** A role change takes away at most one copy of an entry, and none of another identity's. */
  lemma {:induction false} SetRoleCounts(s: seq<GroupMember>, id: Id16, to: Role, m: GroupMember)
    ensures multiset(SetRole(s, id, to))[m] + (if m.identityId == id then 1 else 0) >= multiset(s)[m]
  {
    if s == [] {
    } else {
      SetRoleCounts(s[1..], id, to, m);
      var t := SetRole(s, id, to);
      assert s == [s[0]] + s[1..] && t == [t[0]] + t[1..];
      assert t[1..] == if s[0].identityId == id then s[1..] else SetRole(s[1..], id, to);
    }
  }

  lemma {:induction false} WithoutDrops(s: seq<GroupMember>, id: Id16)
    ensures forall m :: m in Without(s, id) ==> m in s && m.identityId != id
  {
    if s == [] {
    } else {
      WithoutDrops(s[1..], id);
    }
  }

  /** `x` holds an owner entry twice and acts as an owner, `y` is an admin. */
  ghost predicate Ready(s: seq<GroupMember>, x: Id16, y: Id16, m: GroupMember) {
    && Sorted(ByIdentity, s) && x != y
    && m.identityId == x && m.role == Owner && multiset(s)[m] >= 2
    && Find(s, x).Some? && Find(s, x).value.role == Owner
    && Find(s, y).Some? && Find(s, y).value.role == Admin
  }

  lemma Demoted(man: GroupManifest, id: Id16, to: Role)
    requires Sorted(ByIdentity, man.members) && to != Owner
    requires Find(man.members, id).Some? && Find(man.members, id).value.role == Owner
    ensures var call := Call(id, Demote(id, to), 0);
      Apply(man, call).Changed? && Next(man, call).members == SetRole(man.members, id, to)
  {
    SetRoleSorted(man.members, id, to);
    SortFixesSorted(ByIdentity, SetRole(man.members, id, to));
    AuthorityIff(man, Call(id, Demote(id, to), 0));
  }

  lemma PrivilegedOwner(s: seq<GroupMember>, m: GroupMember)
    requires m in s && m.role == Owner
    ensures (m.identityId, Owner) in Privileged(s)
  {
  }

  lemma RemovedLosesAll(man: GroupManifest, y: Id16, x: Id16)
    requires Apply(man, Call(y, Remove(x), 0)).Changed?
    ensures (x, Owner) !in Privileged(Next(man, Call(y, Remove(x), 0)).members)
  {
    WithoutDrops(man.members, x);
    SortPermutes(ByIdentity, Without(man.members, x));
  }

  /** Once `x` has demoted itself, its first entry is judged and all of its entries go. */
  lemma AdminRemovesOwner(man: GroupManifest, x: Id16, y: Id16, m: GroupMember)
    requires Ready(man.members, x, y, m)
    ensures var demoted := Next(man, Call(x, Demote(x, Member), 0));
      var remove := Call(y, Remove(x), 0);
      && Find(demoted.members, y).Some? && Find(demoted.members, y).value.role == Admin
      && Apply(demoted, remove).Changed?
      && (x, Owner) in Privileged(demoted.members) && (x, Owner) !in Privileged(Next(demoted, remove).members)
  {
    var s := man.members;
    Demoted(man, x, Member);
    var demoted := Next(man, Call(x, Demote(x, Member), 0));
    SetRoleFind(s, x, Member, y);
    SetRoleCounts(s, x, Member, m);
    PrivilegedOwner(demoted.members, m);
    AuthorityIff(demoted, Call(y, Remove(x), 0));
    RemovedLosesAll(demoted, y, x);
  }

  lemma {:induction false} FounderCounts(ids: seq<Id16>, ts: U64, x: Id16)
    ensures multiset(Founders(ids, ts))[GroupMember(x, NO_MACHINE, Owner, ts)] == multiset(ids)[x]
    ensures forall m :: m in Founders(ids, ts) ==> m.role == Owner && m.identityId in ids
  {
    if ids == [] {
    } else {
      FounderCounts(ids[1..], ts, x);
      assert ids == [ids[0]] + ids[1..];
      assert Founders(ids, ts) == [GroupMember(ids[0], NO_MACHINE, Owner, ts)] + Founders(ids[1..], ts);
    }
  }

  /** A created group keeps every copy of a founder, all of them owners, sorted. */
  lemma CreatedCounts(groupId: Id16, title: Bytes, founders: seq<Id16>, ts: U64, x: Id16)
    requires |title| <= MAX_NAME
    ensures var s := Created(groupId, title, founders, ts).value.members;
      && Sorted(ByIdentity, s) && |s| == |founders|
      && multiset(s)[GroupMember(x, NO_MACHINE, Owner, ts)] == multiset(founders)[x]
      && (forall m :: m in s ==> m.role == Owner && m.identityId in founders)
  {
    FounderCounts(founders, ts, x);
    FoundersEffect(founders, ts);
    ByIdentityTotal();
    SortSorts(ByIdentity, Founders(founders, ts));
    SortPermutes(ByIdentity, Founders(founders, ts));
  }

  /** Whoever has an entry is found, as an owner if all its entries are. */
  lemma FoundOwner(s: seq<GroupMember>, m: GroupMember)
    requires m in s && forall n :: n in s && n.identityId == m.identityId ==> n.role == Owner
    ensures Find(s, m.identityId).Some? && Find(s, m.identityId).value.role == Owner
  {
    FindFinds(s, m.identityId);
  }

  /** With a founder `x` given twice and another founder `y`: `y` steps down to admin, `x` to
      member, and the admin removes `x`, an owner entry included. */
  lemma DuplicateFoundersEscalate(groupId: Id16, title: Bytes, founders: seq<Id16>, ts: U64, x: Id16, y: Id16)
    requires |title| <= MAX_NAME && multiset(founders)[x] >= 2 && y in founders && x != y
    ensures var man := Created(groupId, title, founders, ts).value;
      Ready(Next(man, Call(y, Demote(y, Admin), 0)).members, x, y, GroupMember(x, NO_MACHINE, Owner, ts))
    ensures var man := Created(groupId, title, founders, ts).value;
      var m1 := Next(man, Call(y, Demote(y, Admin), 0));
      var m2 := Next(m1, Call(x, Demote(x, Member), 0));
      var remove := Call(y, Remove(x), 0);
      && Apply(m2, remove).Changed? && Find(m2.members, y).Some? && Find(m2.members, y).value.role == Admin
      && (x, Owner) in Privileged(m2.members) && (x, Owner) !in Privileged(Next(m2, remove).members)
  {
    var man := Created(groupId, title, founders, ts).value;
    var s, mx, my := man.members, GroupMember(x, NO_MACHINE, Owner, ts), GroupMember(y, NO_MACHINE, Owner, ts);
    CreatedCounts(groupId, title, founders, ts, x);
    CreatedCounts(groupId, title, founders, ts, y);
    FoundOwner(s, mx);
    FoundOwner(s, my);
    Demoted(man, y, Admin);
    SetRoleSorted(s, y, Admin);
    SetRoleFind(s, y, Admin, x);
    SetRoleCounts(s, y, Admin, mx);
    AdminRemovesOwner(Next(man, Call(y, Demote(y, Admin), 0)), x, y, mx);
  }

  /** Some identity other than `x`. */
  function Other(x: Id16): (y: Id16)
    ensures y != x
  {
    var y: Bytes := [(x[0] as int + 1) % 256] + x[1..];
    assert y[0] != x[0];
    y
  }

  /** Alone but with room, `x` adds another member and promotes it to admin. */
  lemma AloneWithRoom(man: GroupManifest, x: Id16, y: Id16, m: GroupMember)
    requires Sorted(ByIdentity, man.members) && |man.members| < MAX_GROUP_SIZE
    requires forall n :: n in man.members ==> n.identityId == x && n.role == Owner
    requires m.identityId == x && multiset(man.members)[m] >= 2 && y != x
    ensures var added := Next(man, Call(x, Add(y, 0), 0)); Ready(Next(added, Call(x, Promote(y, Admin), 0)).members, x, y, m)
  {
    var s, n := man.members, GroupMember(y, NO_MACHINE, Member, 0);
    FoundOwner(s, m);
    FindFinds(s, y);
    var added := Next(man, Call(x, Add(y, 0), 0));
    AuthorityIff(man, Call(x, Add(y, 0), 0));
    var t := added.members;
    assert t == Sort(ByIdentity, s + [n]);
    SortedAdded(s, n, m);
    FoundOwner(t, m);
    FindFinds(t, y);
    PromotedIsReady(added, x, y, m);
  }

  lemma SortedAdded(s: seq<GroupMember>, n: GroupMember, m: GroupMember)
    ensures var t := Sort(ByIdentity, s + [n]);
      && Sorted(ByIdentity, t) && multiset(t)[m] >= multiset(s)[m] && n in t
      && forall k :: k in t ==> k in s || k == n
  {
    ByIdentityTotal();
    SortSorts(ByIdentity, s + [n]);
    SortPermutes(ByIdentity, s + [n]);
    assert n in s + [n];
  }

  lemma PromotedIsReady(man: GroupManifest, x: Id16, y: Id16, m: GroupMember)
    requires Sorted(ByIdentity, man.members) && m.identityId == x && m.role == Owner && x != y && multiset(man.members)[m] >= 2
    requires Find(man.members, x).Some? && Find(man.members, x).value.role == Owner
    requires Find(man.members, y).Some? && Find(man.members, y).value.role == Member
    ensures Ready(Next(man, Call(x, Promote(y, Admin), 0)).members, x, y, m)
  {
    var s := man.members;
    AuthorityIff(man, Call(x, Promote(y, Admin), 0));
    SetRoleSorted(s, y, Admin);
    SortFixesSorted(ByIdentity, SetRole(s, y, Admin));
    SetRoleFind(s, y, Admin, x);
    SetRoleCounts(s, y, Admin, m);
  }

  lemma RunOne(man: GroupManifest, call: Call)
    ensures Run(man, [call]) == Next(man, call)
  {
    assert [call][..0] == [];
    assert Run(man, []) == man;
  }

  lemma RunMore(man: GroupManifest, calls: seq<Call>, call: Call)
    ensures Run(man, calls + [call]) == Next(Run(man, calls), call)
  {
    assert (calls + [call])[..|calls|] == calls;
  }

  /** A reachable ready state is followed by an escalation. */
  lemma ReadyEscalates(man: GroupManifest, calls: seq<Call>, x: Id16, y: Id16, m: GroupMember)
    requires Ready(Run(man, calls).members, x, y, m)
    ensures !NeverEscalates(man)
  {
    var demote, remove := Call(x, Demote(x, Member), 0), Call(y, Remove(x), 0);
    AdminRemovesOwner(Run(man, calls), x, y, m);
    RunMore(man, calls, demote);
    var demoted := Run(man, calls + [demote]);
    RunOne(demoted, remove);
    assert [remove][..0] == [];
    assert NoOwnerActs(demoted, [remove]) by {
      assert NoOwnerActs(demoted, []) && Run(demoted, []) == demoted;
    }
    assert Privileged(Run(demoted, [remove]).members) != Privileged(demoted.members);
  }

  lemma RepeatedEscalates(groupId: Id16, title: Bytes, founders: seq<Id16>, ts: U64, x: Id16)
    requires |title| <= MAX_NAME && multiset(founders)[x] >= 2 && !CrowdOfOne(founders)
    ensures !NeverEscalates(Created(groupId, title, founders, ts).value)
  {
    var man, m := Created(groupId, title, founders, ts).value, GroupMember(x, NO_MACHINE, Owner, ts);
    if exists y :: y in founders && y != x {
      var y :| y in founders && y != x;
      DuplicateFoundersEscalate(groupId, title, founders, ts, x, y);
      RunOne(man, Call(y, Demote(y, Admin), 0));
      ReadyEscalates(man, [Call(y, Demote(y, Admin), 0)], x, y, m);
    } else {
      var y := Other(x);
      assert x in multiset(founders) && x in founders && founders[0] in founders;
      assert forall f :: f in founders ==> f == x;
      CreatedCounts(groupId, title, founders, ts, x);
      AloneWithRoom(man, x, y, m);
      var add, promote := Call(x, Add(y, 0), 0), Call(x, Promote(y, Admin), 0);
      RunOne(man, add);
      RunMore(man, [add], promote);
      ReadyEscalates(man, [add] + [promote], x, y, m);
    }
  }

  /** Only entries of `x`, and none at all or too many for anyone else. */
  ghost predicate Crowd(s: seq<GroupMember>, x: Id16) {
    (s == [] || |s| >= MAX_GROUP_SIZE) && forall m :: m in s ==> m.identityId == x
  }

  lemma SortKeepsCrowd(s: seq<GroupMember>, x: Id16)
    requires Crowd(s, x)
    ensures Crowd(Sort(ByIdentity, s), x)
  {
    SortPermutes(ByIdentity, s);
    assert |multiset(Sort(ByIdentity, s))| == |multiset(s)|;
  }

  lemma SetRoleKeepsCrowd(s: seq<GroupMember>, x: Id16, id: Id16, to: Role)
    requires Crowd(s, x)
    ensures Crowd(SetRole(s, id, to), x)
  {
    SetRoleIdentities(s, id, to);
    var t := SetRole(s, id, to);
    forall m | m in t ensures m.identityId == x {
      var i :| 0 <= i < |t| && t[i] == m;
      assert s[i] in s;
    }
  }

  lemma {:induction false} WithoutCrowd(s: seq<GroupMember>, x: Id16)
    requires forall m :: m in s ==> m.identityId == x
    ensures Without(s, x) == []
  {
    if s == [] {
    } else {
      assert s[0] in s;
      WithoutCrowd(s[1..], x);
    }
  }

  lemma NextKeepsCrowd(man: GroupManifest, call: Call, x: Id16)
    requires Crowd(man.members, x)
    ensures Crowd(Next(man, call).members, x)
  {
    var s := man.members;
    AuthorityIff(man, call);
    if Apply(man, call).Changed? {
      FindFinds(s, call.caller);
      FindFinds(s, call.action.target);
      match call.action
      case Promote(target, to) =>
        SetRoleKeepsCrowd(s, x, target, to);
        SortKeepsCrowd(SetRole(s, target, to), x);
      case Demote(target, to) =>
        SetRoleKeepsCrowd(s, x, target, to);
        SortKeepsCrowd(SetRole(s, target, to), x);
      case Add(_, _) =>
        assert false;
      case Remove(_) =>
        WithoutCrowd(s, x);
        SortKeepsCrowd([], x);
    }
  }

  /** In such a crowd a caller judged not to be an owner can change nothing. */
  lemma {:induction false} CrowdIsFrozen(man: GroupManifest, later: seq<Call>, x: Id16)
    requires Crowd(man.members, x) && NoOwnerActs(man, later)
    ensures Run(man, later) == man
  {
    if later == [] {
    } else {
      var before, call := later[..|later| - 1], later[|later| - 1];
      CrowdIsFrozen(man, before, x);
      AuthorityIff(man, call);
      FindFinds(man.members, call.caller);
      FindFinds(man.members, call.action.target);
    }
  }

  lemma CrowdNeverEscalates(man: GroupManifest, x: Id16)
    requires Crowd(man.members, x)
    ensures NeverEscalates(man)
  {
    var keeps := (m: GroupManifest) => Crowd(m.members, x);
    forall m, c | keeps(m) ensures keeps(Next(m, c)) {
      NextKeepsCrowd(m, c, x);
    }
    forall calls, later | NoOwnerActs(Run(man, calls), later)
      ensures Privileged(Run(Run(man, calls), later).members) == Privileged(Run(man, calls).members)
    {
      RunKeeps(man, calls, keeps);
      CrowdIsFrozen(Run(man, calls), later, x);
    }
  }

  lemma SoundNeverEscalates(man: GroupManifest, founders: nat)
    requires Sound(man, founders)
    ensures NeverEscalates(man)
  {
    forall calls, later | NoOwnerActs(Run(man, calls), later)
      ensures Privileged(Run(Run(man, calls), later).members) == Privileged(Run(man, calls).members)
    {
      RunSound(man, calls, founders);
      RunNeverEscalates(Run(man, calls), later, founders);
    }
  }

  lemma RepeatedFounder(founders: seq<Id16>) returns (x: Id16)
    requires !DistinctFounders(founders)
    ensures multiset(founders)[x] >= 2
  {
    var i, j :| 0 <= i < j < |founders| && founders[i] == founders[j];
    x := founders[i];
    CountsTwice(founders, i, j);
  }

  /** A new group is safe from escalation, in every run, if and only if no founder was given twice;
      the one exception is a single identity given so often that no one else has room. */
  lemma FoundersNeverEscalateIff(groupId: Id16, title: Bytes, founders: seq<Id16>, ts: U64)
    requires |title| <= MAX_NAME
    ensures NeverEscalates(Created(groupId, title, founders, ts).value) <==> DistinctFounders(founders) || CrowdOfOne(founders)
  {
    var man := Created(groupId, title, founders, ts).value;
    if DistinctFounders(founders) {
      CreatedSound(groupId, title, founders, ts);
      SoundNeverEscalates(man, |founders|);
    } else if CrowdOfOne(founders) {
      CreatedCounts(groupId, title, founders, ts, founders[0]);
      CrowdNeverEscalates(man, founders[0]);
    } else {
      var x := RepeatedFounder(founders);
      RepeatedEscalates(groupId, title, founders, ts, x);
    }
  }
}
