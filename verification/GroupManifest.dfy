/** Group manifests, their normal form and the last-writer merge. */
module GroupManifest {
  import opened ByteStrings
  import opened StableSorting
  import opened GroupPermissions

  datatype GroupMember = GroupMember(identityId: Id16, machineId: Id16, role: Role, addedAtMs: U64)

  datatype GroupManifest = GroupManifest(
    groupId: Id16,
    name: Bytes,
    creator: Id16,
    members: seq<GroupMember>,
    mlsEpoch: U64,
    mlsStateBlob: Bytes,
    createdAtMs: U64,
    updatedAtMs: U64)

  predicate ByIdentity(a: GroupMember, b: GroupMember) {
    LexLeq(a.identityId, b.identityId)
  }

  lemma ByIdentityTotal()
    ensures TotalPreorder(ByIdentity)
  {
    forall a: GroupMember, b: GroupMember ensures ByIdentity(a, b) || ByIdentity(b, a) {
      LexTotal(a.identityId, b.identityId);
    }
    forall a: GroupMember, b: GroupMember, c: GroupMember | ByIdentity(a, b) && ByIdentity(b, c) ensures ByIdentity(a, c) {
      LexTransitive(a.identityId, b.identityId, c.identityId);
    }
  }

  /** `normalize_members`: a stable sort by identity. */
  function Normalized(m: GroupManifest): GroupManifest {
    m.(members := Sort(ByIdentity, m.members))
  }

  lemma NormalizedIdempotent(m: GroupManifest)
    ensures Normalized(Normalized(m)) == Normalized(m)
  {
    ByIdentityTotal();
    SortSorts(ByIdentity, m.members);
    SortFixesSorted(ByIdentity, Sort(ByIdentity, m.members));
  }

  /** `b` carries a strictly later (epoch, update time) stamp than `a`. */
  predicate Newer(b: GroupManifest, a: GroupManifest) {
    b.mlsEpoch > a.mlsEpoch || (b.mlsEpoch == a.mlsEpoch && b.updatedAtMs > a.updatedAtMs)
  }

  predicate SameStamp(a: GroupManifest, b: GroupManifest) {
    a.mlsEpoch == b.mlsEpoch && a.updatedAtMs == b.updatedAtMs
  }

  function MergeManifest(a: GroupManifest, b: GroupManifest): GroupManifest {
    if a.mlsEpoch > b.mlsEpoch then a
    else if b.mlsEpoch > a.mlsEpoch then b
    else if b.updatedAtMs > a.updatedAtMs then b
    else a
  }

  function MergeManifests(a: GroupManifest, b: GroupManifest): GroupManifest {
    var winner :=
      if a.mlsEpoch > b.mlsEpoch then a
      else if b.mlsEpoch > a.mlsEpoch then b
      else if a.updatedAtMs >= b.updatedAtMs then a
      else b;
    Normalized(winner)
  }

  /** The two merges agree up to normal form; both associate, also on ties; merging a manifest
      with itself only normalizes it. */
  lemma MergeAlgebra(a: GroupManifest, b: GroupManifest, c: GroupManifest)
    ensures MergeManifests(a, b) == Normalized(MergeManifest(a, b))
    ensures MergeManifest(MergeManifest(a, b), c) == MergeManifest(a, MergeManifest(b, c))
    ensures MergeManifests(MergeManifests(a, b), c) == MergeManifests(a, MergeManifests(b, c))
    ensures MergeManifest(a, a) == a && MergeManifests(a, a) == Normalized(a)
  {
    NormalizedIdempotent(a);
    NormalizedIdempotent(b);
    NormalizedIdempotent(c);
  }

  /** The comments call the merges commutative. They are exactly when the stamps differ or the
      two agree anyway: on a tie each keeps its first argument. */
  lemma MergeCommutesIff(a: GroupManifest, b: GroupManifest)
    ensures MergeManifest(a, b) == MergeManifest(b, a) <==> !SameStamp(a, b) || a == b
    ensures MergeManifests(a, b) == MergeManifests(b, a) <==> !SameStamp(a, b) || Normalized(a) == Normalized(b)
  {
  }

  /** Merging replicas' manifests one after the other. */
  function MergeAll(s: seq<GroupManifest>): GroupManifest
    requires s != []
  {
    if |s| == 1 then s[0] else MergeManifest(MergeAll(s[..|s| - 1]), s[|s| - 1])
  }

  function MergeAllNormalized(s: seq<GroupManifest>): GroupManifest
    requires s != []
  {
    if |s| == 1 then s[0] else MergeManifests(MergeAllNormalized(s[..|s| - 1]), s[|s| - 1])
  }

  /** The fold picks the first manifest whose stamp no other exceeds. */
  lemma {:induction false} MergeAllIsFirstGreatest(s: seq<GroupManifest>) returns (at: nat)
    requires s != []
    ensures at < |s| && MergeAll(s) == s[at]
    ensures forall i :: 0 <= i < |s| ==> !Newer(s[i], s[at])
    ensures forall i :: 0 <= i < at ==> Newer(s[at], s[i])
  {
    var n := |s| - 1;
    at := 0;
    if n == 0 {
    } else {
      at := MergeAllIsFirstGreatest(s[..n]);
      if Newer(s[n], s[at]) {
        at := n;
      }
    }
  }

  /** Where equal stamps mean equal manifests, only the set of merged manifests matters. */
  lemma MergeOrderIrrelevant(s: seq<GroupManifest>, t: seq<GroupManifest>)
    requires s != [] && t != [] && forall m :: m in s <==> m in t
    requires forall a, b :: a in s && b in s && SameStamp(a, b) ==> a == b
    ensures MergeAll(s) == MergeAll(t)
  {
    var i := MergeAllIsFirstGreatest(s);
    var j := MergeAllIsFirstGreatest(t);
    assert s[i] in t && t[j] in s;
    assert SameStamp(s[i], t[j]);
  }

  lemma {:induction false} MergeAllNormalizes(s: seq<GroupManifest>)
    requires s != []
    ensures Normalized(MergeAllNormalized(s)) == Normalized(MergeAll(s))
    ensures SameStamp(MergeAllNormalized(s), MergeAll(s))
    ensures |s| > 1 ==> MergeAllNormalized(s) == Normalized(MergeAll(s))
  {
    if |s| == 1 {
    } else {
      var n := |s| - 1;
      MergeAllNormalizes(s[..n]);
      NormalizedIdempotent(MergeAll(s[..n]));
      NormalizedIdempotent(s[n]);
    }
  }
}
