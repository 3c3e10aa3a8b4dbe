/** The group lifecycle as steps on a manifest, and what every run of them keeps. */
module GroupState {
  import opened ByteStrings
  import opened Wrappers
  import opened StableSorting
  import opened GroupPermissions
  import opened GroupManifest

  const MAX_GROUP_SIZE: nat := 256
  const MAX_NAME: nat := 64
  const NO_MACHINE: Id16 := [0, 0, 0, 0, 0, 0, 0, 0, 0, 0, 0, 0, 0, 0, 0, 0]

  datatype GroupError =
    | PermissionDenied(actor: Role, action: GroupAction)
    | GroupFull(size: nat)
    | NotAMember(identity: Id16)
    | GroupNotFound(group: Id16)
    | InvalidManifestUpdate
    | NameTooLong(len: nat)

  function Find(members: seq<GroupMember>, id: Id16): Option<GroupMember> {
    if members == [] then None
    else if members[0].identityId == id then Some(members[0])
    else Find(members[1..], id)
  }

  lemma {:induction false} FindFinds(members: seq<GroupMember>, id: Id16)
    ensures Find(members, id).Some? ==> Find(members, id).value in members && Find(members, id).value.identityId == id
    ensures Find(members, id).None? ==> forall m :: m in members ==> m.identityId != id
  {
    if members == [] {
    } else {
      FindFinds(members[1..], id);
      assert members == [members[0]] + members[1..];
    }
  }

  /** Writes the first entry of `id`, as `iter_mut().find`. */
  function SetRole(members: seq<GroupMember>, id: Id16, role: Role): seq<GroupMember> {
    if members == [] then []
    else if members[0].identityId == id then [members[0].(role := role)] + members[1..]
    else [members[0]] + SetRole(members[1..], id, role)
  }

  /** Drops every entry of `id`, as `retain`. */
  function Without(members: seq<GroupMember>, id: Id16): seq<GroupMember> {
    if members == [] then []
    else if members[0].identityId == id then Without(members[1..], id)
    else [members[0]] + Without(members[1..], id)
  }

  datatype Action = Promote(target: Id16, role: Role) | Demote(target: Id16, role: Role)
    | Add(target: Id16, addedAtMs: U64) | Remove(target: Id16)

  /** One call on the group: who asks, for what, and the clock at the update. */
  datatype Call = Call(caller: Id16, action: Action, now: U64)

  datatype Outcome = Changed(manifest: GroupManifest) | Unchanged | Failed(error: GroupError)

  function ActionForRoleChange(role: Role): GroupAction {
    match role
    case Admin => PromoteDemoteAdmin
    case Owner => PromoteDemoteAdmin
    case Moderator => PromoteDemoteMod
    case Member => PromoteDemoteMod
  }

  /** `mls_epoch += 1`, wrapping as release arithmetic does. */
  function Bumped(epoch: U64): U64 {
    if epoch + 1 < U64_LIMIT then epoch + 1 else 0
  }

  /** The accepted change: next epoch, new time, normal form. */
  function Committed(man: GroupManifest, members: seq<GroupMember>, now: U64): GroupManifest {
    Normalized(man.(members := members, mlsEpoch := Bumped(man.mlsEpoch), updatedAtMs := now))
  }

  function Apply(man: GroupManifest, call: Call): Outcome {
    var caller := Find(man.members, call.caller);
    if caller.None? then Failed(NotAMember(call.caller))
    else
      var role := caller.value.role;
      match call.action
      case Promote(target, to) => ApplyPromote(man, role, target, to, call.now)
      case Demote(target, to) => ApplyDemote(man, role, target, to, call.now)
      case Add(target, addedAt) => ApplyAdd(man, role, target, addedAt, call.now)
      case Remove(target) => ApplyRemove(man, role, target, call.now)
  }

  function ApplyPromote(man: GroupManifest, role: Role, target: Id16, to: Role, now: U64): Outcome {
    var found := Find(man.members, target);
    if found.None? then Failed(NotAMember(target))
    else if Privilege(to) >= Privilege(found.value.role) then Failed(InvalidManifestUpdate)
    else if !CheckPermission(role, ActionForRoleChange(to), Some(found.value.role)) then
      Failed(PermissionDenied(role, ActionForRoleChange(to)))
    else Changed(Committed(man, SetRole(man.members, target, to), now))
  }

  function ApplyDemote(man: GroupManifest, role: Role, target: Id16, to: Role, now: U64): Outcome {
    var found := Find(man.members, target);
    if found.None? then Failed(NotAMember(target))
    else if Privilege(to) <= Privilege(found.value.role) then Failed(InvalidManifestUpdate)
    else if !CheckPermission(role, ActionForRoleChange(found.value.role), Some(found.value.role)) then
      Failed(PermissionDenied(role, ActionForRoleChange(found.value.role)))
    else Changed(Committed(man, SetRole(man.members, target, to), now))
  }

  function ApplyAdd(man: GroupManifest, role: Role, target: Id16, addedAt: U64, now: U64): Outcome {
    if !CheckPermission(role, AddMember, None) then Failed(PermissionDenied(role, AddMember))
    else if Find(man.members, target).Some? then Unchanged
    else if |man.members| >= MAX_GROUP_SIZE then Failed(GroupFull(|man.members|))
    else Changed(Committed(man, man.members + [GroupMember(target, NO_MACHINE, Member, addedAt)], now))
  }

  function ApplyRemove(man: GroupManifest, role: Role, target: Id16, now: U64): Outcome {
    var found := Find(man.members, target);
    if found.None? then Failed(NotAMember(target))
    else if !CheckPermission(role, RemoveMember, Some(found.value.role)) then Failed(PermissionDenied(role, RemoveMember))
    else if role != Owner && Privilege(role) >= Privilege(found.value.role) then Failed(PermissionDenied(role, RemoveMember))
    else Changed(Committed(man, Without(man.members, target), now))
  }

  function Founders(ids: seq<Id16>, ts: U64): seq<GroupMember> {
    if ids == [] then [] else [GroupMember(ids[0], NO_MACHINE, Owner, ts)] + Founders(ids[1..], ts)
  }

  function Created(groupId: Id16, title: Bytes, founders: seq<Id16>, ts: U64): Result<GroupManifest, GroupError> {
    if |title| > MAX_NAME then Err(NameTooLong(|title|))
    else Ok(Normalized(GroupManifest(
      groupId, title, if founders == [] then NO_MACHINE else founders[0], Founders(founders, ts), 0, [], ts, ts)))
  }

  function Next(man: GroupManifest, call: Call): GroupManifest {
    var o := Apply(man, call);
    if o.Changed? then o.manifest else man
  }

  /** The manifest stored after the calls. */
  function Run(man: GroupManifest, calls: seq<Call>): GroupManifest {
    if calls == [] then man else Next(Run(man, calls[..|calls| - 1]), calls[|calls| - 1])
  }

  function Changes(man: GroupManifest, calls: seq<Call>): nat {
    if calls == [] then 0 else
      var before := calls[..|calls| - 1];
      Changes(man, before) + if Apply(Run(man, before), calls[|calls| - 1]).Changed? then 1 else 0
  }

  /** Strictly ascending by identity: sorted, and nobody twice. */
  ghost predicate StrictlySorted(s: seq<GroupMember>) {
    forall i, j :: 0 <= i < j < |s| ==> LexLess(s[i].identityId, s[j].identityId)
  }

  lemma StrictIsNormal(s: seq<GroupMember>)
    requires StrictlySorted(s)
    ensures Sort(ByIdentity, s) == s
  {
    SortFixesSorted(ByIdentity, s);
  }

  lemma StrictTail(s: seq<GroupMember>)
    requires StrictlySorted(s) && s != []
    ensures StrictlySorted(s[1..])
    ensures forall m :: m in s[1..] ==> LexLess(s[0].identityId, m.identityId)
  {
    forall m | m in s[1..] ensures LexLess(s[0].identityId, m.identityId) {
      var i :| 0 <= i < |s[1..]| && s[1..][i] == m;
      assert s[i + 1] == m;
    }
  }

  lemma {:induction false} SetRoleIdentities(s: seq<GroupMember>, id: Id16, to: Role)
    ensures |SetRole(s, id, to)| == |s|
    ensures forall i :: 0 <= i < |s| ==> SetRole(s, id, to)[i].identityId == s[i].identityId
  {
    if s == [] {
    } else {
      SetRoleIdentities(s[1..], id, to);
    }
  }

  lemma {:induction false} SetRoleEntries(s: seq<GroupMember>, id: Id16, role: Role)
    requires StrictlySorted(s)
    ensures |SetRole(s, id, role)| == |s|
    ensures forall i :: 0 <= i < |s| ==>
      SetRole(s, id, role)[i] == if s[i].identityId == id then s[i].(role := role) else s[i]
  {
    if s == [] {
    } else {
      StrictTail(s);
      SetRoleEntries(s[1..], id, role);
      if s[0].identityId == id {
        forall i | 0 < i < |s| ensures s[i].identityId != id {
          LexTotal(s[0].identityId, s[i].identityId);
        }
      }
    }
  }

  /** Changing a role moves nobody: the list stays strict, and only the target's entry differs. */
  lemma SetRoleEffect(s: seq<GroupMember>, id: Id16, role: Role)
    requires StrictlySorted(s)
    ensures |SetRole(s, id, role)| == |s|
    ensures forall i :: 0 <= i < |s| ==>
      SetRole(s, id, role)[i] == if s[i].identityId == id then s[i].(role := role) else s[i]
    ensures StrictlySorted(SetRole(s, id, role))
  {
    SetRoleIdentities(s, id, role);
    SetRoleEntries(s, id, role);
  }

  lemma {:induction false} WithoutEffect(s: seq<GroupMember>, id: Id16)
    requires StrictlySorted(s)
    ensures forall m :: m in Without(s, id) <==> m in s && m.identityId != id
    ensures |Without(s, id)| <= |s| && StrictlySorted(Without(s, id))
  {
    if s == [] {
    } else {
      StrictTail(s);
      WithoutEffect(s[1..], id);
      var t := Without(s[1..], id);
      assert forall m :: m in s <==> m == s[0] || m in s[1..];
      forall i | 0 <= i < |t| ensures LexLess(s[0].identityId, t[i].identityId) {
        assert t[i] in t;
      }
    }
  }

  ghost predicate DistinctIdentities(s: seq<GroupMember>) {
    forall i, j :: 0 <= i < j < |s| ==> s[i].identityId != s[j].identityId
  }

  /** Sorting members with distinct identities gives a strict list of the same members. */
  lemma SortIsStrict(s: seq<GroupMember>)
    requires DistinctIdentities(s)
    ensures StrictlySorted(Sort(ByIdentity, s))
    ensures |Sort(ByIdentity, s)| == |s| && forall m :: m in Sort(ByIdentity, s) <==> m in s
  {
    var t := Sort(ByIdentity, s);
    ByIdentityTotal();
    SortSorts(ByIdentity, s);
    SortPermutes(ByIdentity, s);
    forall i, j | 0 <= i < j < |t| ensures LexLess(t[i].identityId, t[j].identityId) {
      if t[i].identityId == t[j].identityId {
        assert t[i] in s && t[j] in s;
        var a :| 0 <= a < |s| && s[a] == t[i];
        var b :| 0 <= b < |s| && s[b] == t[j];
        assert a == b;
        CountsOnce(s, t[i]);
        CountsTwice(t, i, j);
      }
    }
  }

  /** What holds of every stored manifest of a group with `founders` distinct founders. */
  ghost predicate Sound(man: GroupManifest, founders: nat) {
    StrictlySorted(man.members) && |man.members| <= if founders > MAX_GROUP_SIZE then founders else MAX_GROUP_SIZE
  }

  /** The members after an accepted call, in terms of the members before. */
  ghost predicate Effect(s: seq<GroupMember>, t: seq<GroupMember>, action: Action) {
    match action
    case Promote(target, to) =>
      |t| == |s| && forall i :: 0 <= i < |s| ==> t[i] == if s[i].identityId == target then s[i].(role := to) else s[i]
    case Demote(target, to) =>
      |t| == |s| && forall i :: 0 <= i < |s| ==> t[i] == if s[i].identityId == target then s[i].(role := to) else s[i]
    case Add(target, addedAt) =>
      |t| == |s| + 1 && forall m :: m in t <==> m in s || m == GroupMember(target, NO_MACHINE, Member, addedAt)
    case Remove(target) =>
      |t| <= |s| && forall m :: m in t <==> m in s && m.identityId != target
  }

  /** What committing `t` as the new members stores. */
  ghost predicate Stores(man: GroupManifest, man': GroupManifest, t: seq<GroupMember>, now: U64) {
    man' == man.(members := t, mlsEpoch := Bumped(man.mlsEpoch), updatedAtMs := now)
  }

  lemma CommitStrict(man: GroupManifest, t: seq<GroupMember>, now: U64)
    requires StrictlySorted(t)
    ensures Stores(man, Committed(man, t, now), t, now)
  {
    StrictIsNormal(t);
  }

  lemma AddEffect(man: GroupManifest, target: Id16, addedAt: U64)
    requires StrictlySorted(man.members) && Find(man.members, target).None?
    ensures var t := Sort(ByIdentity, man.members + [GroupMember(target, NO_MACHINE, Member, addedAt)]);
      StrictlySorted(t) && Effect(man.members, t, Add(target, addedAt))
  {
    var s := man.members;
    var t := s + [GroupMember(target, NO_MACHINE, Member, addedAt)];
    FindFinds(s, target);
    forall i, j | 0 <= i < j < |t| ensures t[i].identityId != t[j].identityId {
      if j < |s| { LexTotal(s[i].identityId, s[j].identityId); } else { assert s[i] in s; }
    }
    SortIsStrict(t);
    assert forall m :: m in t <==> m in s || m == GroupMember(target, NO_MACHINE, Member, addedAt);
  }

  /** An accepted call keeps the list strict, changes the members as the action says and
      touches only members, epoch and update time. */
  lemma ApplyEffect(man: GroupManifest, call: Call)
    requires StrictlySorted(man.members) && Apply(man, call).Changed?
    ensures var man' := Apply(man, call).manifest;
      && StrictlySorted(man'.members) && Effect(man.members, man'.members, call.action)
      && Stores(man, man', man'.members, call.now)
      && (call.action.Add? ==> |man.members| < MAX_GROUP_SIZE)
  {
    var s := man.members;
    match call.action {
      case Promote(target, to) =>
        SetRoleEffect(s, target, to);
        CommitStrict(man, SetRole(s, target, to), call.now);
      case Demote(target, to) =>
        SetRoleEffect(s, target, to);
        CommitStrict(man, SetRole(s, target, to), call.now);
      case Add(target, addedAt) =>
        AddEffect(man, target, addedAt);
      case Remove(target) =>
        WithoutEffect(s, target);
        CommitStrict(man, Without(s, target), call.now);
    }
  }

  lemma {:induction false} FoundersEffect(ids: seq<Id16>, ts: U64)
    ensures |Founders(ids, ts)| == |ids|
    ensures forall i :: 0 <= i < |ids| ==> Founders(ids, ts)[i] == GroupMember(ids[i], NO_MACHINE, Owner, ts)
  {
    if ids == [] {
    } else {
      FoundersEffect(ids[1..], ts);
    }
  }

  ghost predicate DistinctFounders(founders: seq<Id16>) {
    forall i, j :: 0 <= i < j < |founders| ==> founders[i] != founders[j]
  }

  lemma CreatedSound(groupId: Id16, title: Bytes, founders: seq<Id16>, ts: U64)
    requires |title| <= MAX_NAME && DistinctFounders(founders)
    ensures var man := Created(groupId, title, founders, ts).value;
      && Sound(man, |founders|) && man.mlsEpoch == 0 && |man.members| == |founders|
      && forall m :: m in man.members <==> m.identityId in founders && m == GroupMember(m.identityId, NO_MACHINE, Owner, ts)
  {
    FoundersEffect(founders, ts);
    SortIsStrict(Founders(founders, ts));
    forall id | id in founders ensures GroupMember(id, NO_MACHINE, Owner, ts) in Founders(founders, ts) {
      var i :| 0 <= i < |founders| && founders[i] == id;
      assert Founders(founders, ts)[i] == GroupMember(id, NO_MACHINE, Owner, ts);
    }
  }

  /** The manifest of a new group: its own id and name, the first founder as creator, one time for
      everything, and an owner entry for every founder listed. */
  ghost predicate NewGroup(man: GroupManifest, groupId: Id16, title: Bytes, founders: seq<Id16>, ts: U64) {
    && man.groupId == groupId && man.name == title && man.mlsEpoch == 0 && man.mlsStateBlob == []
    && man.createdAtMs == ts && man.updatedAtMs == ts
    && (founders != [] ==> man.creator == founders[0]) && (founders == [] ==> man.creator == NO_MACHINE)
    && multiset(man.members) == multiset(seq(|founders|, i requires 0 <= i < |founders| => GroupMember(founders[i], NO_MACHINE, Owner, ts)))
    && (forall i, j :: 0 <= i < j < |man.members| ==> LexLeq(man.members[i].identityId, man.members[j].identityId))
  }

  lemma CreatedIsNew(groupId: Id16, title: Bytes, founders: seq<Id16>, ts: U64)
    ensures |title| > 64 ==> Created(groupId, title, founders, ts) == Err(NameTooLong(|title|))
    ensures |title| <= 64 ==> Created(groupId, title, founders, ts).Ok? && NewGroup(Created(groupId, title, founders, ts).value, groupId, title, founders, ts)
  {
    FoundersEffect(founders, ts);
    var s := Founders(founders, ts);
    assert s == seq(|founders|, i requires 0 <= i < |founders| => GroupMember(founders[i], NO_MACHINE, Owner, ts));
    SortPermutes(ByIdentity, s);
    ByIdentityTotal();
    SortSorts(ByIdentity, s);
    var t := Sort(ByIdentity, s);
    forall i, j | 0 <= i < j < |t| ensures LexLeq(t[i].identityId, t[j].identityId) {
      assert ByIdentity(t[i], t[j]);
    }
  }

  /** A created group lists every member once exactly when no founder was given twice. */
  lemma CreatedStrictIff(groupId: Id16, title: Bytes, founders: seq<Id16>, ts: U64)
    requires |title| <= MAX_NAME
    ensures StrictlySorted(Created(groupId, title, founders, ts).value.members) <==> DistinctFounders(founders)
  {
    var s := Founders(founders, ts);
    var t := Sort(ByIdentity, s);
    if DistinctFounders(founders) {
      CreatedSound(groupId, title, founders, ts);
    } else {
      var i, j :| 0 <= i < j < |founders| && founders[i] == founders[j];
      FoundersEffect(founders, ts);
      CountsTwice(s, i, j);
      SortPermutes(ByIdentity, s);
      if StrictlySorted(t) {
        StrictIsDistinct(t);
        CountsOnce(t, s[i]);
        assert false;
      }
    }
  }

  lemma StrictIsDistinct(s: seq<GroupMember>)
    requires StrictlySorted(s)
    ensures DistinctIdentities(s)
  {
    forall i, j | 0 <= i < j < |s| ensures s[i].identityId != s[j].identityId {
      LexTotal(s[i].identityId, s[j].identityId);
    }
  }

  lemma NextSound(man: GroupManifest, call: Call, founders: nat)
    requires Sound(man, founders)
    ensures Sound(Next(man, call), founders)
  {
    if Apply(man, call).Changed? {
      ApplyEffect(man, call);
    }
  }

  lemma NextEpoch(man: GroupManifest, call: Call)
    ensures Next(man, call).mlsEpoch == if Apply(man, call).Changed? then Bumped(man.mlsEpoch) else man.mlsEpoch
  {
  }

  /** What every call keeps, every run keeps. */
  lemma {:induction false} RunKeeps(man: GroupManifest, calls: seq<Call>, keeps: GroupManifest -> bool)
    requires keeps(man)
    requires forall m, c {:trigger Next(m, c)} :: keeps(m) ==> keeps(Next(m, c))
    ensures keeps(Run(man, calls))
  {
    if calls == [] {
    } else {
      RunKeeps(man, calls[..|calls| - 1], keeps);
    }
  }

  /** In every run from a sound manifest the members stay strictly ascending by identity and
      within the size bound. */
  lemma RunSound(man: GroupManifest, calls: seq<Call>, founders: nat)
    requires Sound(man, founders)
    ensures Sound(Run(man, calls), founders)
  {
    var keeps := (m: GroupManifest) => Sound(m, founders);
    forall m, c | keeps(m) ensures keeps(Next(m, c)) {
      NextSound(m, c, founders);
    }
    RunKeeps(man, calls, keeps);
  }

  /** The epoch after `n` changes. */
  ghost function BumpedBy(epoch: U64, n: nat): U64 {
    if n == 0 then epoch else Bumped(BumpedBy(epoch, n - 1))
  }

  lemma {:induction false} EpochBumps(man: GroupManifest, calls: seq<Call>)
    ensures Run(man, calls).mlsEpoch == BumpedBy(man.mlsEpoch, Changes(man, calls))
    ensures Changes(man, calls) <= |calls|
  {
    if calls == [] {
    } else {
      var before, call := calls[..|calls| - 1], calls[|calls| - 1];
      EpochBumps(man, before);
      RunStep(man, calls);
      NextEpoch(Run(man, before), call);
    }
  }

  lemma {:induction false} BumpedByExact(epoch: U64, n: nat)
    requires epoch + n < U64_LIMIT
    ensures BumpedBy(epoch, n) == epoch + n
  {
    if n == 0 {
    } else {
      BumpedByExact(epoch, n - 1);
    }
  }

  lemma {:induction false} BumpedByWraps(epoch: U64, n: nat)
    ensures BumpedBy(epoch, n) == (epoch + n) % U64_LIMIT
  {
    if n == 0 {
      SmallRemainder(epoch);
    } else {
      BumpedByWraps(epoch, n - 1);
      BumpedSum(epoch, n - 1);
    }
  }

  /** The epoch has counted exactly the calls that changed something, modulo 2^64. */
  lemma EpochCounts(man: GroupManifest, calls: seq<Call>) returns (n: nat)
    ensures n == Changes(man, calls) <= |calls|
    ensures Run(man, calls).mlsEpoch == (man.mlsEpoch + n) % U64_LIMIT
  {
    EpochBumps(man, calls);
    n := Changes(man, calls);
    BumpedByWraps(man.mlsEpoch, n);
  }

  lemma RunStep(man: GroupManifest, calls: seq<Call>)
    requires calls != []
    ensures var before, call := calls[..|calls| - 1], calls[|calls| - 1];
      && Run(man, calls) == Next(Run(man, before), call)
      && Changes(man, calls) == Changes(man, before) + if Apply(Run(man, before), call).Changed? then 1 else 0
  {
  }

  lemma BumpedSum(epoch: U64, n: nat)
    ensures Bumped((epoch + n) % U64_LIMIT) == (epoch + n + 1) % U64_LIMIT
  {
  }

  lemma SmallRemainder(n: nat)
    requires n < U64_LIMIT
    ensures n % U64_LIMIT == n
  {
  }

  /** The (identity, role) pairs of owners and admins. */
  ghost function Privileged(s: seq<GroupMember>): set<(Id16, Role)> {
    set m | m in s && Privilege(m.role) <= 1 :: (m.identityId, m.role)
  }

  lemma {:induction false} FindUnique(s: seq<GroupMember>, m: GroupMember)
    requires StrictlySorted(s) && m in s
    ensures Find(s, m.identityId) == Some(m)
  {
    StrictTail(s);
    if s[0] == m {
    } else {
      LexTotal(s[0].identityId, m.identityId);
      FindUnique(s[1..], m);
    }
  }

  /** Owner, Admin, Moderator, Member: `a` stands above `b`. */
  ghost predicate Above(a: Role, b: Role) {
    match a
    case Owner => b != Owner
    case Admin => b == Moderator || b == Member
    case Moderator => b == Member
    case Member => false
  }

  lemma AboveIff(a: Role, b: Role)
    ensures Above(a, b) <==> Privilege(a) < Privilege(b)
  {
  }

  ghost function RoleOf(man: GroupManifest, id: Id16): Option<Role> {
    if Find(man.members, id).Some? then Some(Find(man.members, id).value.role) else None
  }

  /** The only calls that change a manifest, by the roles of caller and target. */
  ghost predicate Grants(man: GroupManifest, call: Call) {
    var caller, target := RoleOf(man, call.caller), RoleOf(man, call.action.target);
    && caller.Some?
    && match call.action
       case Promote(_, to) => target.Some? && Above(to, target.value) && (caller.value == Owner || (caller.value == Admin && to == Moderator))
       case Demote(_, to) => target.Some? && Above(target.value, to) && (caller.value == Owner || (caller.value == Admin && target.value == Moderator))
       case Add(_, _) => target.None? && |man.members| < 256 && (caller.value == Owner || caller.value == Admin)
       case Remove(_) => target.Some? && (caller.value == Owner || (Above(caller.value, target.value) && caller.value != Member))
  }

  /** The only calls that succeed without a change: adding somebody again. */
  ghost predicate Repeats(man: GroupManifest, call: Call) {
    call.action.Add? && RoleOf(man, call.caller) in {Some(Owner), Some(Admin)} && RoleOf(man, call.action.target).Some?
  }

  /** What is refused, and how. */
  ghost predicate Refuses(man: GroupManifest, call: Call, e: GroupError) {
    var caller, target := RoleOf(man, call.caller), RoleOf(man, call.action.target);
    if caller.None? then e == NotAMember(call.caller)
    else
      match call.action
      case Promote(id, to) =>
        if target.None? then e == NotAMember(id)
        else if !Above(to, target.value) then e == InvalidManifestUpdate
        else if to == Moderator then caller.value in {Moderator, Member} && e == PermissionDenied(caller.value, PromoteDemoteMod)
        else caller.value != Owner && e == PermissionDenied(caller.value, PromoteDemoteAdmin)
      case Demote(id, to) =>
        if target.None? then e == NotAMember(id)
        else if !Above(target.value, to) then e == InvalidManifestUpdate
        else if target.value == Moderator then caller.value in {Moderator, Member} && e == PermissionDenied(caller.value, PromoteDemoteMod)
        else caller.value != Owner && e == PermissionDenied(caller.value, PromoteDemoteAdmin)
      case Add(_, _) =>
        if caller.value in {Moderator, Member} then e == PermissionDenied(caller.value, AddMember)
        else target.None? && |man.members| >= 256 && e == GroupFull(|man.members|)
      case Remove(id) =>
        if target.None? then e == NotAMember(id)
        else caller.value != Owner && (caller.value == Member || !Above(caller.value, target.value)) && e == PermissionDenied(caller.value, RemoveMember)
  }

  /** Who may do what, stated outright: the calls that change a manifest. */
  lemma AuthorityIff(man: GroupManifest, call: Call)
    ensures Apply(man, call).Changed? <==> Grants(man, call)
  {
  }

  /** The calls that succeed without a change. */
  lemma UnchangedIff(man: GroupManifest, call: Call)
    ensures Apply(man, call).Unchanged? <==> Repeats(man, call)
  {
  }

  /** Every failure with its error. */
  lemma FailedIff(man: GroupManifest, call: Call, e: GroupError)
    ensures Apply(man, call) == Failed(e) <==> Refuses(man, call, e)
  {
    PermissionValues();
    match call.action
    case Promote(_, _) =>
    case Demote(_, _) =>
    case Add(_, _) =>
    case Remove(_) =>
  }

  /** The permission table, row by row. */
  lemma PermissionValues()
    ensures forall a, t :: CheckPermission(Owner, a, t)
    ensures forall a, t :: CheckPermission(Admin, a, t) <==> a in {SendMessage, AddMember, RemoveMember, PromoteDemoteMod}
    ensures forall a, t :: CheckPermission(Moderator, a, t) <==> a == SendMessage || (a == RemoveMember && t == Some(Member))
    ensures forall a, t :: CheckPermission(Member, a, t) <==> a == SendMessage
  {
  }

  /** A call accepted from a non-owner changes no owner or admin, and everyone it adds, removes
      or re-ranks stands strictly below the caller before and after. */
  lemma NoEscalation(man: GroupManifest, call: Call)
    requires StrictlySorted(man.members) && Apply(man, call).Changed?
    requires Find(man.members, call.caller).value.role != Owner
    ensures var s, t := man.members, Apply(man, call).manifest.members;
      var rank := Privilege(Find(s, call.caller).value.role);
      && Privileged(t) == Privileged(s)
      && (forall m :: m in s && m !in t ==> rank < Privilege(m.role))
      && (forall m :: m in t && m !in s ==> rank < Privilege(m.role))
  {
    var s, t := man.members, Apply(man, call).manifest.members;
    ApplyEffect(man, call);
    AuthorityIff(man, call);
    EffectBelow(s, t, call.action, Find(s, call.caller).value.role);
    SamePrivileged(s, t);
  }

  /** What a non-owner may be granted: the target, when a member, and any new role rank below. */
  ghost predicate TargetsBelow(s: seq<GroupMember>, action: Action, role: Role) {
    && role != Owner
    && (action.Promote? ==> role == Admin && action.role == Moderator)
    && (action.Demote? ==> Privilege(action.role) > 2)
    && (action.Add? ==> role == Admin)
    && (!action.Add? ==> Find(s, action.target).Some? && Privilege(Find(s, action.target).value.role) > Privilege(role))
  }

  lemma GoneBelow(s: seq<GroupMember>, t: seq<GroupMember>, action: Action, role: Role, m: GroupMember)
    requires StrictlySorted(s) && Effect(s, t, action) && TargetsBelow(s, action, role) && m in s && m !in t
    ensures Privilege(role) < Privilege(m.role) && 1 < Privilege(m.role)
  {
    var i :| 0 <= i < |s| && s[i] == m;
    FindUnique(s, m);
    assert !action.Add?;
    if !action.Remove? {
      assert t[i] in t;
    }
  }

  lemma NewBelow(s: seq<GroupMember>, t: seq<GroupMember>, action: Action, role: Role, m: GroupMember)
    requires StrictlySorted(s) && Effect(s, t, action) && TargetsBelow(s, action, role) && m in t && m !in s
    ensures Privilege(role) < Privilege(m.role) && 1 < Privilege(m.role)
  {
    var i :| 0 <= i < |t| && t[i] == m;
    if action.Promote? || action.Demote? {
      assert s[i] in s;
      FindUnique(s, s[i]);
    }
  }

  lemma EffectBelow(s: seq<GroupMember>, t: seq<GroupMember>, action: Action, role: Role)
    requires StrictlySorted(s) && Effect(s, t, action) && TargetsBelow(s, action, role)
    ensures forall m :: m in s && m !in t ==> Privilege(role) < Privilege(m.role) && 1 < Privilege(m.role)
    ensures forall m :: m in t && m !in s ==> Privilege(role) < Privilege(m.role) && 1 < Privilege(m.role)
  {
    forall m | m in s && m !in t ensures Privilege(role) < Privilege(m.role) && 1 < Privilege(m.role) {
      GoneBelow(s, t, action, role, m);
    }
    forall m | m in t && m !in s ensures Privilege(role) < Privilege(m.role) && 1 < Privilege(m.role) {
      NewBelow(s, t, action, role, m);
    }
  }

  lemma SamePrivileged(s: seq<GroupMember>, t: seq<GroupMember>)
    requires forall m :: m in s && m !in t ==> Privilege(m.role) > 1
    requires forall m :: m in t && m !in s ==> Privilege(m.role) > 1
    ensures Privileged(s) == Privileged(t)
  {
  }

  /** No call of the run that changes the manifest comes from an owner of that moment. */
  ghost predicate NoOwnerActs(man: GroupManifest, calls: seq<Call>) {
    calls == [] ||
      var before := calls[..|calls| - 1];
      && NoOwnerActs(man, before)
      && (Apply(Run(man, before), calls[|calls| - 1]).Changed? ==>
            Find(Run(man, before).members, calls[|calls| - 1].caller).value.role != Owner)
  }

  lemma {:induction false} RunNeverEscalates(man: GroupManifest, calls: seq<Call>, founders: nat)
    requires Sound(man, founders) && NoOwnerActs(man, calls)
    ensures Privileged(Run(man, calls).members) == Privileged(man.members)
  {
    if calls == [] {
    } else {
      var before, call := calls[..|calls| - 1], calls[|calls| - 1];
      RunNeverEscalates(man, before, founders);
      RunSound(man, before, founders);
      if Apply(Run(man, before), call).Changed? {
        NoEscalation(Run(man, before), call);
      }
    }
  }

  ghost predicate Ownerless(s: seq<GroupMember>) {
    forall m :: m in s ==> m.role != Owner
  }

  lemma NextOwnerless(man: GroupManifest, call: Call, founders: nat)
    requires Sound(man, founders) && Ownerless(man.members)
    ensures Ownerless(Next(man, call).members) && Privileged(Next(man, call).members) == Privileged(man.members)
  {
    if Apply(man, call).Changed? {
      FindFinds(man.members, call.caller);
      NoEscalation(man, call);
      SameOwners(man.members, Next(man, call).members);
    }
  }

  /** Once a group has no owner it never has one again, and its admins stay as they are. */
  lemma OwnerlessIsFrozen(man: GroupManifest, calls: seq<Call>, founders: nat)
    requires Sound(man, founders) && Ownerless(man.members)
    ensures Ownerless(Run(man, calls).members)
    ensures Privileged(Run(man, calls).members) == Privileged(man.members)
  {
    var keeps := (m: GroupManifest) =>
      Sound(m, founders) && Ownerless(m.members) && Privileged(m.members) == Privileged(man.members);
    forall m, c | keeps(m) ensures keeps(Next(m, c)) {
      NextSound(m, c, founders);
      NextOwnerless(m, c, founders);
    }
    RunKeeps(man, calls, keeps);
  }

  lemma SameOwners(s: seq<GroupMember>, t: seq<GroupMember>)
    requires Privileged(s) == Privileged(t) && Ownerless(s)
    ensures Ownerless(t)
  {
    assert forall p :: p in Privileged(s) ==> p.1 != Owner;
    forall m | m in t ensures m.role != Owner {
      assert Privilege(m.role) <= 1 ==> (m.identityId, m.role) in Privileged(t);
    }
  }

  /** Epochs grow strictly with every change: equal epochs in one run mean equal manifests. */
  lemma {:induction false} EpochOrder(man: GroupManifest, calls: seq<Call>, i: nat)
    requires i <= |calls|
    ensures Changes(man, calls[..i]) <= Changes(man, calls)
    ensures Changes(man, calls[..i]) == Changes(man, calls) ==> Run(man, calls[..i]) == Run(man, calls)
  {
    if i == |calls| {
      assert calls[..i] == calls;
    } else {
      var before := calls[..|calls| - 1];
      EpochOrder(man, before, i);
      assert before[..i] == calls[..i];
    }
  }

  ghost function Snapshots(man: GroupManifest, calls: seq<Call>, at: seq<nat>): seq<GroupManifest>
    requires forall i :: 0 <= i < |at| ==> at[i] <= |calls|
  {
    seq(|at|, i requires 0 <= i < |at| => Run(man, calls[..at[i]]))
  }

  lemma SnapshotFacts(man: GroupManifest, calls: seq<Call>, founders: nat)
    requires Sound(man, founders) && man.mlsEpoch == 0 && Changes(man, calls) < U64_LIMIT
    ensures Run(man, calls).mlsEpoch == Changes(man, calls)
    ensures Normalized(Run(man, calls)) == Run(man, calls)
  {
    RunSound(man, calls, founders);
    SoundIsNormal(Run(man, calls), founders);
    EpochIsCount(man, calls);
  }

  lemma EpochIsCount(man: GroupManifest, calls: seq<Call>)
    requires man.mlsEpoch == 0 && Changes(man, calls) < U64_LIMIT
    ensures Run(man, calls).mlsEpoch == Changes(man, calls)
  {
    EpochBumps(man, calls);
    BumpedByExact(man.mlsEpoch, Changes(man, calls));
  }

  lemma SoundIsNormal(man: GroupManifest, founders: nat)
    requires Sound(man, founders)
    ensures Normalized(man) == man
  {
    StrictIsNormal(man.members);
  }

  lemma SnapshotWins(man: GroupManifest, calls: seq<Call>, founders: nat, i: nat, j: nat)
    requires Sound(man, founders) && man.mlsEpoch == 0 && Changes(man, calls) < U64_LIMIT
    requires i <= j <= |calls|
    ensures Wins(Run(man, calls[..i]), Run(man, calls[..j]))
  {
    assert calls[..j][..i] == calls[..i];
    EpochOrder(man, calls[..j], i);
    EpochOrder(man, calls, j);
    SnapshotFacts(man, calls[..i], founders);
    SnapshotFacts(man, calls[..j], founders);
    LaterWins(Run(man, calls[..i]), Run(man, calls[..j]));
  }

  /** Merging the two either way, with either merge, gives `b`. */
  ghost predicate Wins(a: GroupManifest, b: GroupManifest) {
    MergeManifests(a, b) == b && MergeManifests(b, a) == b && MergeManifest(a, b) == b && MergeManifest(b, a) == b
  }

  lemma LaterWins(a: GroupManifest, b: GroupManifest)
    requires a == b || a.mlsEpoch < b.mlsEpoch
    requires Normalized(b) == b
    ensures Wins(a, b)
  {
  }

  ghost predicate LaterWinsAll(s: seq<GroupManifest>, at: seq<nat>)
    requires |s| == |at|
  {
    forall i, j {:trigger Wins(s[i], s[j])} :: 0 <= i < |at| && 0 <= j < |at| && at[i] <= at[j] ==> Wins(s[i], s[j])
  }

  lemma FrontWins(s: seq<GroupManifest>, at: seq<nat>)
    requires |s| == |at| > 0 && LaterWinsAll(s, at)
    ensures LaterWinsAll(s[..|at| - 1], at[..|at| - 1])
  {
    var n := |at| - 1;
    forall i, j | 0 <= i < n && 0 <= j < n && at[..n][i] <= at[..n][j] ensures Wins(s[..n][i], s[..n][j]) {
      assert Wins(s[i], s[j]);
    }
  }

  lemma {:induction false} LatestWins(s: seq<GroupManifest>, at: seq<nat>) returns (k: nat)
    requires |s| == |at| > 0
    requires LaterWinsAll(s, at)
    ensures k < |at| && forall i :: 0 <= i < |at| ==> at[i] <= at[k]
    ensures MergeAll(s) == s[k] && MergeAllNormalized(s) == s[k]
  {
    var n := |at| - 1;
    k := 0;
    if n == 0 {
    } else {
      FrontWins(s, at);
      k := LatestWins(s[..n], at[..n]);
      assert at[..n][k] == at[k] && s[..n][k] == s[k];
      if at[n] > at[k] {
        assert Wins(s[k], s[n]);
        k := n;
      } else {
        assert Wins(s[n], s[k]);
      }
      forall i | 0 <= i < n ensures at[i] <= at[k] {
        assert at[..n][i] == at[i];
      }
    }
  }

  /** Replicas converge: merging any snapshots of one run, in any order and however often each,
      gives exactly the latest of them. */
  lemma SnapshotsConverge(man: GroupManifest, calls: seq<Call>, founders: nat, at: seq<nat>) returns (last: nat)
    requires Sound(man, founders) && man.mlsEpoch == 0 && Changes(man, calls) < U64_LIMIT
    requires at != [] && forall i :: 0 <= i < |at| ==> at[i] <= |calls|
    ensures last in at && forall i :: 0 <= i < |at| ==> at[i] <= last
    ensures last <= |calls|
    ensures MergeAll(Snapshots(man, calls, at)) == Run(man, calls[..last])
    ensures MergeAllNormalized(Snapshots(man, calls, at)) == Run(man, calls[..last])
  {
    var s := Snapshots(man, calls, at);
    forall i, j | 0 <= i < |at| && 0 <= j < |at| && at[i] <= at[j] ensures Wins(s[i], s[j]) {
      SnapshotWins(man, calls, founders, at[i], at[j]);
    }
    var k := LatestWins(s, at);
    last := at[k];
  }
}
