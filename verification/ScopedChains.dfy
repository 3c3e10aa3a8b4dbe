/** Sectors stored under `(identity, machine, id)` keys, and the per-scope listing. */
module ScopedChains {
  import opened ByteStrings
  import opened Wrappers
  import opened OrderedStore
  import opened Postcard
  import opened SectorCodec

  /** Lengths are cut to 16 bits, as by Rust's `as u16`. */
  function ScopePrefix(identity: Text, machine: Text): Bytes {
    ToBe(|identity|, 2) + (identity + (ToBe(|machine|, 2) + machine))
  }

  function SectorKey(identity: Text, machine: Text, id: Id16): Bytes {
    ScopePrefix(identity, machine) + id
  }

  function KeyOf(s: Sector): Bytes {
    SectorKey(s.identityId, s.machineId, s.id)
  }

  /** The ids whose length the key can hold. */
  predicate Short(identity: Text, machine: Text) {
    |identity| < 0x1_0000 && |machine| < 0x1_0000
  }

  /** The key can be read as that of a scope with an identity of `n` bytes and a machine of `l`. */
  predicate ReadsAs(key: Bytes, n: U64, l: U64) {
    && 4 + n + l <= |key|
    && key[..2] == ToBe(n, 2) && ValidUtf8(key[2..2 + n])
    && key[2 + n..4 + n] == ToBe(l, 2) && ValidUtf8(key[4 + n..4 + n + l])
  }

  lemma Parts(h: Bytes, i: Bytes, g: Bytes, m: Bytes, rest: Bytes)
    requires |h| == |g| == 2
    ensures var key, n, l := h + (i + (g + m)) + rest, |i|, |m|;
      && |key| == 4 + n + l + |rest| && key[..2] == h && key[2..2 + n] == i
      && key[2 + n..4 + n] == g && key[4 + n..4 + n + l] == m && key[4 + n + l..] == rest
  {
  }

  lemma KeyParts(identity: Text, machine: Text, id: Id16)
    ensures var key, n, l := SectorKey(identity, machine, id), |identity|, |machine|;
      && |key| == 20 + n + l && key[..2] == ToBe(n, 2) && key[2..2 + n] == identity
      && key[2 + n..4 + n] == ToBe(l, 2) && key[4 + n..4 + n + l] == machine
  {
    Parts(ToBe(|identity|, 2), identity, ToBe(|machine|, 2), machine, id);
  }

  /** The scopes whose prefix a key has are exactly the ways to read it. */
  lemma PrefixIsReading(i: Text, m: Text, key: Bytes)
    requires ScopePrefix(i, m) <= key
    ensures ReadsAs(key, |i|, |m|) && key[2..2 + |i|] == i && key[4 + |i|..4 + |i| + |m|] == m
  {
    var p := ScopePrefix(i, m);
    assert key == p + key[|p|..];
    Parts(ToBe(|i|, 2), i, ToBe(|m|, 2), m, key[|p|..]);
  }

  lemma ReadingIsPrefix(key: Bytes, n: U64, l: U64)
    requires ReadsAs(key, n, l)
    ensures ScopePrefix(key[2..2 + n], key[4 + n..4 + n + l]) <= key
  {
    Reassembled(key, n, l);
    assert ScopePrefix(key[2..2 + n], key[4 + n..4 + n + l]) == key[..2] + (key[2..2 + n] + (key[2 + n..4 + n] + key[4 + n..4 + n + l]));
  }

  lemma CutAt(key: Bytes, a: nat, b: nat)
    requires a <= b <= |key|
    ensures key[a..] == key[a..b] + key[b..]
  {
  }

  lemma CutFront(key: Bytes, a: nat)
    requires a <= |key|
    ensures key == key[..a] + key[a..]
  {
  }

  lemma Regroup(h: Bytes, i: Bytes, g: Bytes, m: Bytes, rest: Bytes)
    ensures h + (i + (g + (m + rest))) == h + (i + (g + m)) + rest
  {
  }

  lemma Joined(key: Bytes, h: Bytes, t1: Bytes, i: Bytes, t2: Bytes, g: Bytes, t3: Bytes, m: Bytes, rest: Bytes)
    requires key == h + t1 && t1 == i + t2 && t2 == g + t3 && t3 == m + rest
    ensures key == h + (i + (g + m)) + rest
  {
    Regroup(h, i, g, m, rest);
  }

  lemma Reassembled(key: Bytes, n: nat, l: nat)
    requires 4 + n + l <= |key|
    ensures key == key[..2] + (key[2..2 + n] + (key[2 + n..4 + n] + key[4 + n..4 + n + l])) + key[4 + n + l..]
  {
    CutFront(key, 2);
    CutAt(key, 2, 2 + n);
    CutAt(key, 2 + n, 4 + n);
    CutAt(key, 4 + n, 4 + n + l);
    Joined(key, key[..2], key[2..], key[2..2 + n], key[2 + n..], key[2 + n..4 + n], key[4 + n..],
      key[4 + n..4 + n + l], key[4 + n + l..]);
  }

  lemma HeaderEqualIff(n: nat, m: nat)
    ensures ToBe(n, 2) == ToBe(m, 2) <==> n % 0x1_0000 == m % 0x1_0000
  {
    Widths();
    BeNatToBe(n, 2);
    BeNatToBe(m, 2);
    BeNatInjective(ToBe(n, 2), ToBe(m, 2));
  }

  /** Of the lengths with one header only the shortest fits in 16 bits. */
  lemma SameHeader(n: nat, short: nat)
    requires ToBe(n, 2) == ToBe(short, 2) && short < 0x1_0000
    ensures n == short || n >= short + 0x1_0000
  {
    HeaderEqualIff(n, short);
  }

  lemma {:induction false} NoFF(s: Bytes, j: nat)
    requires ValidUtf8(s) && j < |s|
    ensures s[j] != 0xff
    decreases |s|
  {
    var n := CharLength(s);
    if j < n {
    } else {
      NoFF(s[n..], j - n);
      assert s[n..][j - n] == s[j];
    }
  }

  /** The header of a length of at least 65520 bytes starts with 0xFF. */
  lemma LongHeader(l: nat)
    requires 0xfff0 <= l < 0x1_0000
    ensures ToBe(l, 2)[0] == 0xff
  {
    assert ToBe(l, 2) == ToBe(l / 256, 1) + [l % 256];
    assert ToBe(l / 256, 1) == ToBe(l / 256 / 256, 0) + [l / 256 % 256];
  }

  /** The key of short ids has one reading: any other would need an identity so long that it
      takes in the machine's header, whose first byte is then no UTF-8. */
  lemma ShortReadsOnce(identity: Text, machine: Text, id: Id16, n: U64, l: U64)
    requires Short(identity, machine) && ReadsAs(SectorKey(identity, machine, id), n, l)
    ensures n == |identity| && l == |machine|
  {
    var key := SectorKey(identity, machine, id);
    KeyParts(identity, machine, id);
    SameHeader(n, |identity|);
    if n == |identity| {
      SameHeader(l, |machine|);
    } else {
      LongHeader(|machine|);
      assert key[2 + |identity|] == key[2 + |identity|..4 + |identity|][0] == 0xff;
      assert key[2..2 + n][|identity|] == key[2 + |identity|];
      NoFF(key[2..2 + n], |identity|);
    }
  }

  /** A scope of any length whose prefix a short key has is the key's own. */
  lemma ScopeMatchesIff(i: Text, m: Text, identity: Text, machine: Text, id: Id16)
    requires Short(identity, machine)
    ensures ScopePrefix(i, m) <= SectorKey(identity, machine, id) <==> i == identity && m == machine
  {
    if ScopePrefix(i, m) <= SectorKey(identity, machine, id) {
      PrefixIsReading(i, m, SectorKey(identity, machine, id));
      ShortReadsOnce(identity, machine, id, |i|, |m|);
      KeyParts(identity, machine, id);
    }
  }

  lemma KeyInjective(i: Text, m: Text, id: Id16, i': Text, m': Text, id': Id16)
    requires Short(i', m')
    ensures SectorKey(i, m, id) == SectorKey(i', m', id') <==> i == i' && m == m' && id == id'
  {
    var p := ScopePrefix(i, m);
    ScopeMatchesIff(i, m, i', m', id');
    assert p <= p + id;
    assert id == (p + id)[|p|..] && id' == (p + id')[|p|..];
  }

  /** A key is met only by scans of its own scope, among all scopes of whatever length. */
  ghost predicate SeenOnlyInScope(identity: Text, machine: Text, id: Id16) {
    forall i: Text, m: Text :: ScopePrefix(i, m) <= SectorKey(identity, machine, id) ==> i == identity && m == machine
  }

  /** For all ids: a key is isolated exactly when its bytes read in one way only. */
  lemma ScopeIsolationIff(identity: Text, machine: Text, id: Id16)
    ensures SeenOnlyInScope(identity, machine, id) <==>
      forall n: U64, l: U64 :: ReadsAs(SectorKey(identity, machine, id), n, l) ==> n == |identity| && l == |machine|
  {
    var key := SectorKey(identity, machine, id);
    if SeenOnlyInScope(identity, machine, id) {
      forall n: U64, l: U64 | ReadsAs(key, n, l) ensures n == |identity| && l == |machine| {
        ReadingIsOwn(identity, machine, id, n, l);
      }
    } else {
      var i: Text, m: Text :| ScopePrefix(i, m) <= key && !(i == identity && m == machine);
      OtherReading(identity, machine, id, i, m);
    }
  }

  lemma ReadingIsOwn(identity: Text, machine: Text, id: Id16, n: U64, l: U64)
    requires SeenOnlyInScope(identity, machine, id) && ReadsAs(SectorKey(identity, machine, id), n, l)
    ensures n == |identity| && l == |machine|
  {
    var key := SectorKey(identity, machine, id);
    var i: Text, m: Text := key[2..2 + n], key[4 + n..4 + n + l];
    ReadingIsPrefix(key, n, l);
    assert ScopePrefix(i, m) <= SectorKey(identity, machine, id);
    assert |i| == n && |m| == l;
  }

  lemma OtherReading(identity: Text, machine: Text, id: Id16, i: Text, m: Text)
    requires ScopePrefix(i, m) <= SectorKey(identity, machine, id) && !(i == identity && m == machine)
    ensures ReadsAs(SectorKey(identity, machine, id), |i|, |m|) && !(|i| == |identity| && |m| == |machine|)
  {
    KeyParts(identity, machine, id);
    PrefixIsReading(i, m, SectorKey(identity, machine, id));
  }

  predicate AllAscii(s: Bytes) {
    forall i :: 0 <= i < |s| ==> s[i] < 0x80
  }

  /** For ASCII ids isolation holds exactly up to the 16-bit length: with a longer identity or
      machine the key reads as that of another scope, too. */
  lemma AsciiIsolationIff(identity: Text, machine: Text, id: Id16)
    requires AllAscii(identity) && AllAscii(machine)
    ensures SeenOnlyInScope(identity, machine, id) <==> Short(identity, machine)
  {
    ScopeIsolationIff(identity, machine, id);
    if Short(identity, machine) {
      forall n: U64, l: U64 | ReadsAs(SectorKey(identity, machine, id), n, l) ensures n == |identity| && l == |machine| {
        ShortReadsOnce(identity, machine, id, n, l);
      }
    } else if |identity| >= 0x1_0000 {
      var n, l := LongIdentityReads(identity, machine, id);
    } else {
      var l := LongMachineReads(identity, machine, id);
    }
  }

  lemma Truncated(len: nat) returns (n: nat)
    requires len >= 0x1_0000
    ensures n < 0x1_0000 && n + 0x1_0000 <= len && ToBe(n, 2) == ToBe(len, 2)
  {
    n := len % 0x1_0000;
    Remainder(len, 0x1_0000);
    HeaderEqualIff(len, n);
  }

  lemma Remainder(len: nat, m: nat)
    requires 0 < m <= len
    ensures len % m + m <= len && len % m % m == len % m
  {
    var d := len / m;
    assert len == m * d + len % m;
    assert d >= 1;
    ModUnique(len % m, m, 0, len % m);
  }

  /** Two ASCII bytes are the header of some short length. */
  lemma AsciiField(s: Bytes) returns (l: nat)
    requires |s| == 2 && AllAscii(s)
    ensures l == 256 * (s[0] as nat) + s[1] as nat < 0x8000 && ToBe(l, 2) == s
  {
    l := 256 * (s[0] as nat) + s[1] as nat;
    TwoBytes(s[0], s[1]);
    assert s == [s[0], s[1]];
    ToBeBeNat(s);
  }

  lemma TwoBytes(a: Byte, b: Byte)
    ensures BeNat([a, b]) == 256 * (a as nat) + b as nat
  {
    var s: Bytes := [a, b];
    assert s[..1] == [a] && s[..1][..0] == [];
    assert BeNat(s[..1]) == a;
  }

  /** A slice of the identity field of a key is a slice of the identity. */
  lemma IdentitySlice(identity: Text, machine: Text, id: Id16, from: nat, end: nat)
    requires from <= end <= |identity|
    ensures |SectorKey(identity, machine, id)| >= 2 + end
    ensures SectorKey(identity, machine, id)[2 + from..2 + end] == identity[from..end]
  {
    var key := SectorKey(identity, machine, id);
    KeyParts(identity, machine, id);
    assert key[2 + from..2 + end] == key[2..2 + |identity|][from..end];
  }

  lemma AsciiSlice(s: Bytes, from: nat, end: nat)
    requires AllAscii(s) && from <= end <= |s|
    ensures ValidUtf8(s[from..end]) && AllAscii(s[from..end])
  {
    Ascii(s[from..end]);
  }

  /** Where a cut identity, two length bytes and a machine lie within an identity. */
  lemma CutIdentity(identity: Text, machine: Text, id: Id16, n: nat, l: nat)
    requires n + 2 + l <= |identity|
    ensures var key := SectorKey(identity, machine, id);
      && 4 + n + l <= |key| && key[..2] == ToBe(|identity|, 2) && key[2..2 + n] == identity[0..n]
      && key[2 + n..4 + n] == identity[n..n + 2] && key[4 + n..4 + n + l] == identity[n + 2..n + 2 + l]
  {
    KeyParts(identity, machine, id);
    IdentitySlice(identity, machine, id, 0, n);
    IdentitySlice(identity, machine, id, n, n + 2);
    IdentitySlice(identity, machine, id, n + 2, n + 2 + l);
  }

  lemma ReadsByParts(key: Bytes, n: U64, l: U64, i: Bytes, g: Bytes, m: Bytes)
    requires 4 + n + l <= |key| && key[..2] == ToBe(n, 2) && g == ToBe(l, 2)
    requires key[2..2 + n] == i && key[2 + n..4 + n] == g && key[4 + n..4 + n + l] == m
    requires ValidUtf8(i) && ValidUtf8(m)
    ensures ReadsAs(key, n, l)
  {
  }

  /** A long identity is read short, and the two bytes after the cut as a machine's length. */
  lemma LongIdentityReads(identity: Text, machine: Text, id: Id16) returns (n: U64, l: U64)
    requires AllAscii(identity) && |identity| >= 0x1_0000
    ensures n + 0x1_0000 <= |identity|
    ensures l == 256 * (identity[n] as nat) + identity[n + 1] as nat < 0x8000
    ensures ReadsAs(SectorKey(identity, machine, id), n, l)
  {
    n := Truncated(|identity|);
    l := FieldAt(identity, n);
    CutReads(identity, machine, id, n, l);
  }

  lemma FieldAt(identity: Bytes, n: nat) returns (l: nat)
    requires AllAscii(identity) && n + 2 <= |identity|
    ensures l == 256 * (identity[n] as nat) + identity[n + 1] as nat < 0x8000 && ToBe(l, 2) == identity[n..n + 2]
  {
    AsciiSlice(identity, n, n + 2);
    l := AsciiField(identity[n..n + 2]);
  }

  lemma CutReads(identity: Text, machine: Text, id: Id16, n: U64, l: U64)
    requires AllAscii(identity) && n + 2 + l <= |identity|
    requires ToBe(n, 2) == ToBe(|identity|, 2) && ToBe(l, 2) == identity[n..n + 2]
    ensures ReadsAs(SectorKey(identity, machine, id), n, l)
  {
    CutIdentity(identity, machine, id, n, l);
    CutReadsAt(SectorKey(identity, machine, id), identity, n, l);
  }

  lemma CutReadsAt(key: Bytes, identity: Text, n: U64, l: U64)
    requires AllAscii(identity) && n + 2 + l <= |identity| && ToBe(l, 2) == identity[n..n + 2]
    requires 4 + n + l <= |key| && key[..2] == ToBe(n, 2) && key[2..2 + n] == identity[0..n]
    requires key[2 + n..4 + n] == identity[n..n + 2] && key[4 + n..4 + n + l] == identity[n + 2..n + 2 + l]
    ensures ReadsAs(key, n, l)
  {
    AsciiSlice(identity, 0, n);
    AsciiSlice(identity, n + 2, n + 2 + l);
    ReadsByParts(key, n, l, identity[0..n], identity[n..n + 2], identity[n + 2..n + 2 + l]);
  }

  lemma LongMachineReads(identity: Text, machine: Text, id: Id16) returns (l: U64)
    requires AllAscii(machine) && |machine| >= 0x1_0000
    ensures ReadsAs(SectorKey(identity, machine, id), |identity|, l) && l != |machine|
  {
    var key, n := SectorKey(identity, machine, id), |identity|;
    l := Truncated(|machine|);
    KeyParts(identity, machine, id);
    assert key[4 + n..4 + n + l] == key[4 + n..4 + n + |machine|][..l] == machine[..l];
    Ascii(machine[..l]);
    ReadsByParts(key, n, l, identity, ToBe(l, 2), machine[..l]);
  }

  /** `count` times the letter `a`. */
  function LettersA(count: U64): (t: Text)
    ensures |t| == count && forall i :: 0 <= i < count ==> t[i] == 0x61
  {
    var s: Bytes := seq(count, _ => 0x61);
    Ascii(s);
    s
  }

  /** 65536 letters are too many: their key is met by the scan of the scope with an empty
      identity and 24929 letters as its machine. */
  lemma LongIdIsMet(id: Id16)
    ensures ScopePrefix([], LettersA(24929)) <= SectorKey(LettersA(0x1_0000), [], id)
  {
    LettersMet(LettersA(0x1_0000), LettersA(24929), id);
  }

  lemma LettersMet(identity: Text, machine: Text, id: Id16)
    requires |identity| == 0x1_0000 && (forall i :: 0 <= i < |identity| ==> identity[i] == 0x61)
    requires |machine| == 24929 && (forall i :: 0 <= i < |machine| ==> machine[i] == 0x61)
    ensures ScopePrefix([], machine) <= SectorKey(identity, [], id)
  {
    var n, l := LongIdentityReads(identity, [], id);
    assert n == 0 && l == 24929;
    CutIdentity(identity, [], id, n, l);
    assert identity[2..2 + l] == machine;
    ReadingIsPrefix(SectorKey(identity, [], id), n, l);
  }

  /** Alternating bytes 0xC3 0xA9, the UTF-8 of `e` with an acute accent; an odd number of them
      ends inside a character. */
  predicate Accented(s: Bytes) {
    forall i :: 0 <= i < |s| ==> s[i] == if i % 2 == 0 then 0xc3 else 0xa9
  }

  lemma {:induction false} AccentedValidIff(s: Bytes)
    requires Accented(s)
    ensures ValidUtf8(s) <==> |s| % 2 == 0
    decreases |s|
  {
    if |s| < 2 {
    } else {
      assert CharLength(s) == 2;
      AccentedValidIff(s[2..]);
    }
  }

  /** Beyond ASCII a long id can be isolated all the same: of 32768 accented letters the other
      reading would cut a character. */
  lemma LongIdCanBeIsolated(identity: Text, id: Id16)
    requires Accented(identity) && |identity| == 0x1_0000
    ensures SeenOnlyInScope(identity, [], id) && !Short(identity, [])
  {
    ScopeIsolationIff(identity, [], id);
    forall n: U64, l: U64 | ReadsAs(SectorKey(identity, [], id), n, l) ensures n == |identity| && l == 0 {
      AccentedReadsOnce(identity, id, n, l);
    }
  }

  lemma AccentedReadsOnce(identity: Text, id: Id16, n: U64, l: U64)
    requires Accented(identity) && |identity| == 0x1_0000 && ReadsAs(SectorKey(identity, [], id), n, l)
    ensures n == |identity| && l == 0
  {
    KeyParts(identity, [], id);
    WholeMultiple(n, |identity|);
    if n == 0 {
      AccentedCut(identity, id, l);
    } else {
      SameHeader(l, 0);
    }
  }

  lemma WholeMultiple(n: nat, len: nat)
    requires ToBe(n, 2) == ToBe(len, 2) && len == 0x1_0000 && n < 0x2_0000
    ensures n == 0 || n == len
  {
    HeaderEqualIff(n, len);
  }

  /** Read from the front the accented letters make a length of 50089, and so many bytes of them
      are no text. */
  lemma AccentedCut(identity: Text, id: Id16, l: U64)
    requires Accented(identity) && |identity| == 0x1_0000
    ensures !ReadsAs(SectorKey(identity, [], id), 0, l)
  {
    var key := SectorKey(identity, [], id);
    if ReadsAs(key, 0, l) {
      KeyParts(identity, [], id);
      IdentitySlice(identity, [], id, 0, 2);
      AccentedSlice(identity, 2);
      AccentedHeader(l);
      IdentitySlice(identity, [], id, 2, 2 + l);
      AccentedSlice(identity, 2 + l);
      AccentedValidIff(identity[2..2 + l]);
    }
  }

  lemma AccentedSlice(s: Bytes, end: nat)
    requires Accented(s) && 2 <= end <= |s|
    ensures s[0..2] == [0xc3, 0xa9] && Accented(s[2..end])
  {
  }

  lemma AccentedHeader(l: nat)
    requires ToBe(l, 2) == [0xc3, 0xa9] && l < 0x1_0020
    ensures l == 50089
  {
    Widths();
    BeNatToBe(l, 2);
    TwoBytes(0xc3, 0xa9);
  }

  /** Every sector sits under its own key. */
  ghost predicate WellStored(data: map<Bytes, Sector>) {
    forall k :: k in data ==> k == KeyOf(data[k])
  }

  ghost function Values(pairs: seq<(Bytes, Sector)>): seq<Sector> {
    seq(|pairs|, i requires 0 <= i < |pairs| => pairs[i].1)
  }

  class SectorStore {
    const sectors: ColumnFamily<Sector>

    constructor (cf: ColumnFamily<Sector>)
      ensures sectors == cf
    {
      sectors := cf;
    }

    method PutSector(s: Sector)
      modifies sectors
      ensures sectors.data == old(sectors.data)[KeyOf(s) := s]
      ensures old(WellStored(sectors.data)) ==> WellStored(sectors.data)
    {
      sectors.Put(KeyOf(s), s);
    }

    method GetSector(identity: Text, machine: Text, id: Id16) returns (r: Option<Sector>)
      ensures r.Some? <==> SectorKey(identity, machine, id) in sectors.data
      ensures r.Some? ==> r.value == sectors.data[SectorKey(identity, machine, id)]
    {
      r := sectors.Get(SectorKey(identity, machine, id));
    }

    method DeleteSector(identity: Text, machine: Text, id: Id16)
      modifies sectors
      ensures sectors.data == old(sectors.data) - {SectorKey(identity, machine, id)}
      ensures old(WellStored(sectors.data)) ==> WellStored(sectors.data)
    {
      sectors.Delete(SectorKey(identity, machine, id));
    }

    method IterChain(identity: Text, machine: Text) returns (results: seq<Sector>)
      ensures results == Values(Scan(sectors.data, ScopePrefix(identity, machine)))
    {
      var prefix := ScopePrefix(identity, machine);
      var keys := sectors.IterFrom(prefix);
      results := [];
      var i := 0;
      while i < |keys|
        invariant 0 <= i == |results| <= |keys|
        invariant forall j :: 0 <= j < i ==> prefix <= keys[j]
        invariant forall j :: 0 <= j < i ==> keys[j] in sectors.data && results[j] == sectors.data[keys[j]]
      {
        var k := keys[i];
        if !(prefix <= k) {
          break;
        }
        results := results + [sectors.data[k]];
        i := i + 1;
      }
      ScanIsExact(sectors.data.Keys, prefix, i);
    }
  }

  datatype Op = PutOp(sector: Sector) | DeleteOp(identity: Text, machine: Text, id: Id16)

  function ScopeOf(op: Op): (Text, Text) {
    match op
    case PutOp(s) => (s.identityId, s.machineId)
    case DeleteOp(i, m, _) => (i, m)
  }

  function IdOf(op: Op): Id16 {
    match op
    case PutOp(s) => s.id
    case DeleteOp(_, _, id) => id
  }

  /** The operation's key has the scope's prefix only if it is the scope's own. */
  predicate Clear(op: Op, i: Text, m: Text) {
    ScopePrefix(i, m) <= SectorKey(ScopeOf(op).0, ScopeOf(op).1, IdOf(op)) ==> ScopeOf(op) == (i, m)
  }

  ghost function Step(data: map<Bytes, Sector>, op: Op): map<Bytes, Sector> {
    match op
    case PutOp(s) => data[KeyOf(s) := s]
    case DeleteOp(i, m, id) => data - {SectorKey(i, m, id)}
  }

  ghost function Run(ops: seq<Op>): map<Bytes, Sector> {
    if ops == [] then map[] else Step(Run(ops[..|ops| - 1]), ops[|ops| - 1])
  }

  ghost function ScopeStep(scope: map<Id16, Sector>, op: Op, identity: Text, machine: Text): map<Id16, Sector> {
    match op
    case PutOp(s) => if s.identityId == identity && s.machineId == machine then scope[s.id := s] else scope
    case DeleteOp(i, m, id) => if i == identity && m == machine then scope - {id} else scope
  }

  /** What one scope holds after the run: its own last writes, nothing of any other scope. */
  ghost function ScopeAfter(ops: seq<Op>, identity: Text, machine: Text): map<Id16, Sector> {
    if ops == [] then map[]
    else ScopeStep(ScopeAfter(ops[..|ops| - 1], identity, machine), ops[|ops| - 1], identity, machine)
  }

  /** The store restricted to one scope is that scope's map. */
  ghost predicate Holds(data: map<Bytes, Sector>, scope: map<Id16, Sector>, i: Text, m: Text) {
    && WellStored(data)
    && OwnPrefix(data, i, m)
    && (forall id: Id16 :: id in scope <==> SectorKey(i, m, id) in data)
    && (forall id :: id in scope ==> data[SectorKey(i, m, id)] == scope[id])
  }

  ghost predicate OwnPrefix(data: map<Bytes, Sector>, i: Text, m: Text) {
    forall k :: k in data && ScopePrefix(i, m) <= k ==> data[k].identityId == i && data[k].machineId == m
  }

  lemma StepKeepsKeys(data: map<Bytes, Sector>, op: Op, i: Text, m: Text)
    requires WellStored(data) && OwnPrefix(data, i, m) && Clear(op, i, m)
    ensures WellStored(Step(data, op)) && OwnPrefix(Step(data, op), i, m)
  {
  }

  lemma OwnKey(i: Text, m: Text, id: Id16, op: Op)
    requires Clear(op, i, m)
    ensures SectorKey(i, m, id) == SectorKey(ScopeOf(op).0, ScopeOf(op).1, IdOf(op)) <==> ScopeOf(op) == (i, m) && id == IdOf(op)
  {
    var p := ScopePrefix(i, m);
    assert p <= p + id;
    assert id == (p + id)[|p|..] && IdOf(op) == (p + IdOf(op))[|p|..];
  }

  lemma StepHolds(data: map<Bytes, Sector>, scope: map<Id16, Sector>, op: Op, i: Text, m: Text)
    requires Holds(data, scope, i, m) && Clear(op, i, m)
    ensures Holds(Step(data, op), ScopeStep(scope, op, i, m), i, m)
  {
    var data', scope' := Step(data, op), ScopeStep(scope, op, i, m);
    forall id: Id16
      ensures id in scope' <==> SectorKey(i, m, id) in data'
      ensures id in scope' ==> data'[SectorKey(i, m, id)] == scope'[id]
    {
      StepHoldsAt(data, scope, op, i, m, id);
    }
    StepKeepsKeys(data, op, i, m);
  }

  lemma StepHoldsAt(data: map<Bytes, Sector>, scope: map<Id16, Sector>, op: Op, i: Text, m: Text, id: Id16)
    requires Clear(op, i, m) && (id in scope <==> SectorKey(i, m, id) in data)
    requires id in scope ==> data[SectorKey(i, m, id)] == scope[id]
    ensures var data', scope' := Step(data, op), ScopeStep(scope, op, i, m);
      && (id in scope' <==> SectorKey(i, m, id) in data')
      && (id in scope' ==> data'[SectorKey(i, m, id)] == scope'[id])
  {
    OwnKey(i, m, id, op);
  }

  /** After any puts and deletes whose keys are clear of the scope, one scope's part of the store
      is its own last-write map. */
  lemma {:induction false} RunHolds(ops: seq<Op>, i: Text, m: Text)
    requires forall op :: op in ops ==> Clear(op, i, m)
    ensures Holds(Run(ops), ScopeAfter(ops, i, m), i, m)
  {
    if ops == [] {
    } else {
      var before := ops[..|ops| - 1];
      RunHolds(before, i, m);
      StepHolds(Run(before), ScopeAfter(before, i, m), ops[|ops| - 1], i, m);
    }
  }

  /** The listing of a scope after a run is exactly the scope's sectors, in strictly ascending id. */
  ghost predicate ListsExactly(ops: seq<Op>, i: Text, m: Text) {
    var listed, scope := Values(Scan(Run(ops), ScopePrefix(i, m))), ScopeAfter(ops, i, m);
    && (forall s: Sector :: s in listed <==> s.id in scope && scope[s.id] == s)
    && (forall a, b :: 0 <= a < b < |listed| ==> LexLess(listed[a].id, listed[b].id))
  }

  lemma IterChainIsScope(ops: seq<Op>, i: Text, m: Text)
    requires forall op :: op in ops ==> Clear(op, i, m)
    ensures ListsExactly(ops, i, m)
  {
    var data, scope, prefix := Run(ops), ScopeAfter(ops, i, m), ScopePrefix(i, m);
    var keys, listed := KeysWithPrefix(data.Keys, prefix), Values(Scan(data, prefix));
    RunHolds(ops, i, m);
    PrefixKeys(data.Keys, prefix);
    forall j | 0 <= j < |keys|
      ensures listed[j].id in scope && scope[listed[j].id] == listed[j]
      ensures keys[j] == prefix + listed[j].id
    {
      assert keys[j] in keys;
      assert keys[j] == SectorKey(i, m, listed[j].id);
    }
    forall s: Sector | s.id in scope && scope[s.id] == s ensures s in listed {
      var key := SectorKey(i, m, s.id);
      assert prefix <= key;
      assert key in keys;
      var j :| 0 <= j < |keys| && keys[j] == key;
      assert listed[j] == s;
    }
    forall a, b | 0 <= a < b < |listed| ensures LexLess(listed[a].id, listed[b].id) {
      LexSplit(prefix, listed[a].id, prefix, listed[b].id);
      LexTotal(prefix, prefix);
    }
  }

  /** Runs of operations with short ids list every scope exactly, whatever the scope's length. */
  lemma ShortRunsListExactly(ops: seq<Op>, i: Text, m: Text)
    requires forall op :: op in ops ==> Short(ScopeOf(op).0, ScopeOf(op).1)
    ensures ListsExactly(ops, i, m)
  {
    forall op | op in ops ensures Clear(op, i, m) {
      ScopeMatchesIff(i, m, ScopeOf(op).0, ScopeOf(op).1, IdOf(op));
    }
    IterChainIsScope(ops, i, m);
  }

  ghost predicate RunsOver(ops: seq<Op>, scopes: iset<(Text, Text)>) {
    forall op :: op in ops ==> ScopeOf(op) in scopes
  }

  ghost predicate ClearOf(scopes: iset<(Text, Text)>, i: Text, m: Text) {
    forall op: Op :: ScopeOf(op) in scopes ==> Clear(op, i, m)
  }

  /** For any scopes that may write: a scope is listed exactly after all their runs if and only if
      no key of another of them has its prefix. */
  lemma ListingExactIff(scopes: iset<(Text, Text)>, i: Text, m: Text)
    ensures (forall ops :: RunsOver(ops, scopes) ==> ListsExactly(ops, i, m)) <==> ClearOf(scopes, i, m)
  {
    if ClearOf(scopes, i, m) {
      forall ops | RunsOver(ops, scopes) ensures ListsExactly(ops, i, m) {
        IterChainIsScope(ops, i, m);
      }
    } else {
      var op: Op :| ScopeOf(op) in scopes && !Clear(op, i, m);
      var s := Sector(IdOf(op), [], ScopeOf(op).0, ScopeOf(op).1, 0, [], None);
      ForeignIsListed(s, i, m);
      assert RunsOver([PutOp(s)], scopes);
    }
  }

  lemma ForeignIsListed(s: Sector, i: Text, m: Text)
    requires ScopePrefix(i, m) <= KeyOf(s) && (s.identityId, s.machineId) != (i, m)
    ensures !ListsExactly([PutOp(s)], i, m)
  {
    var ops, prefix := [PutOp(s)], ScopePrefix(i, m);
    assert ops[..|ops| - 1] == [];
    assert Run(ops) == map[KeyOf(s) := s];
    assert ScopeAfter([], i, m) == map[] && ScopeAfter(ops, i, m) == map[];
    var keys, listed := KeysWithPrefix(Run(ops).Keys, prefix), Values(Scan(Run(ops), prefix));
    PrefixKeys(Run(ops).Keys, prefix);
    assert KeyOf(s) in keys;
    var j :| 0 <= j < |keys| && keys[j] == KeyOf(s);
    assert listed[j] == s;
  }
}
