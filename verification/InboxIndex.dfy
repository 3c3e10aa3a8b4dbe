/** Keys of the inbox index: owner, inverted timestamp, conversation. */
module InboxIndex {
  import opened ByteStrings
  import opened Wrappers

  type ConversationId = b: Bytes | |b| == 32
    witness [0, 0, 0, 0, 0, 0, 0, 0, 0, 0, 0, 0, 0, 0, 0, 0, 0, 0, 0, 0, 0, 0, 0, 0, 0, 0, 0, 0, 0, 0, 0, 0]

  /** The (identity, machine) pair an inbox belongs to. */
  datatype Owner = Owner(identity: Id16, machine: Id16)

  const KEY_LEN: nat := 72

  function OwnerPrefix(o: Owner): (p: Bytes)
    ensures |p| == 32
  {
    o.identity + o.machine
  }

  function InvertedTs(ts: U64): (b: Bytes)
    ensures |b| == 8
  {
    ToBe(U64_LIMIT - 1 - ts, 8)
  }

  function InboxKey(o: Owner, ts: U64, conv: ConversationId): (key: Bytes)
    ensures |key| == KEY_LEN
  {
    OwnerPrefix(o) + (InvertedTs(ts) + conv)
  }

  function DecodeKey(key: Bytes): Option<(Owner, U64, ConversationId)> {
    if |key| != KEY_LEN then None
    else
      InvertedTsInRange(key[32..40]);
      Some((Owner(key[..16], key[16..32]), U64_LIMIT - 1 - BeNat(key[32..40]), key[40..]))
  }

  lemma InvertedTsInRange(b: Bytes)
    requires |b| == 8
    ensures BeNat(b) < U64_LIMIT
  {
    Widths();
    BeNatBound(b);
  }

  /** Later timestamps sort first. */
  lemma InvertedTsOrder(ts: U64, ts': U64)
    ensures LexLess(InvertedTs(ts), InvertedTs(ts')) <==> ts > ts'
    ensures InvertedTs(ts) == InvertedTs(ts') <==> ts == ts'
    ensures BeNat(InvertedTs(ts)) == U64_LIMIT - 1 - ts
  {
    Widths();
    BeRoundTrip(U64_LIMIT - 1 - ts, 8);
    BeRoundTrip(U64_LIMIT - 1 - ts', 8);
    LexIsNumeric(InvertedTs(ts), InvertedTs(ts'));
  }

  lemma DecodeInvertsEncode(o: Owner, ts: U64, conv: ConversationId)
    ensures DecodeKey(InboxKey(o, ts, conv)) == Some((o, ts, conv))
  {
    var key, t := InboxKey(o, ts, conv), InvertedTs(ts);
    assert key == o.identity + (o.machine + (t + conv));
    assert key[..16] == o.identity && key[16..32] == o.machine && key[32..40] == t && key[40..] == conv;
    InvertedTsOrder(ts, ts);
  }

  /** What stands where in a key; times count down from the greatest. */
  lemma KeyParts(o: Owner, ts: U64, conv: ConversationId)
    ensures var key := InboxKey(o, ts, conv);
      && key[..16] == o.identity && key[16..32] == o.machine
      && BeNat(key[32..40]) == 0xffff_ffff_ffff_ffff - ts && key[40..] == conv
  {
    var key, t := InboxKey(o, ts, conv), InvertedTs(ts);
    assert key == o.identity + (o.machine + (t + conv));
    InvertedTsOrder(ts, ts);
    assert key[32..40] == t;
  }

  /** Exactly the 72-byte keys decode, and they encode back to themselves. */
  lemma EncodeInvertsDecode(key: Bytes)
    ensures DecodeKey(key).Some? <==> |key| == KEY_LEN
    ensures |key| == KEY_LEN ==> var (o, ts, conv) := DecodeKey(key).value; InboxKey(o, ts, conv) == key
  {
    if |key| == KEY_LEN {
      var t := key[32..40];
      InvertedTsInRange(t);
      ToBeBeNat(t);
      assert key == (key[..16] + key[16..32]) + (t + key[40..]);
    }
  }

  /** Within one owner, key order is newest first, ties by conversation. */
  lemma KeyOrder(o: Owner, ts: U64, conv: ConversationId, ts': U64, conv': ConversationId)
    ensures LexLess(InboxKey(o, ts, conv), InboxKey(o, ts', conv'))
       <==> ts > ts' || (ts == ts' && LexLess(conv, conv'))
  {
    var p, t, t' := OwnerPrefix(o), InvertedTs(ts), InvertedTs(ts');
    InvertedTsOrder(ts, ts');
    LexSplit(p, t + conv, p, t' + conv');
    LexTotal(p, p);
    LexSplit(t, conv, t', conv');
  }

  /** An owner's prefix matches no other owner's keys. */
  lemma OwnerMatchesIff(o: Owner, o': Owner, ts: U64, conv: ConversationId)
    ensures OwnerPrefix(o) <= InboxKey(o', ts, conv) <==> o == o'
  {
    var p, p', rest := OwnerPrefix(o), OwnerPrefix(o'), InvertedTs(ts) + conv;
    assert p + [] == p;
    PrefixSplit(p, [], p', rest);
    PrefixSplit(o.identity, o.machine, o'.identity, o'.machine);
    if p == p' {
      assert o.machine == p[16..] && o'.machine == p'[16..];
    }
  }

  method CopyInto(key: array<Byte>, offset: nat, source: Bytes)
    requires offset + |source| <= key.Length
    modifies key
    ensures key[..] == old(key[..offset]) + source + old(key[offset + |source|..])
  {
    forall i | 0 <= i < |source| {
      key[offset + i] := source[i];
    }
  }

  method EncodeKey(identity: Id16, machine: Id16, lastTs: U64, conv: ConversationId) returns (key: array<Byte>)
    ensures fresh(key) && key[..] == InboxKey(Owner(identity, machine), lastTs, conv)
  {
    key := new Byte[KEY_LEN](_ => 0);
    var offset := 0;
    CopyInto(key, offset, identity);
    offset := offset + 16;
    CopyInto(key, offset, machine);
    offset := offset + 16;
    var invertedTs := InvertedTs(lastTs);
    CopyInto(key, offset, invertedTs);
    offset := offset + 8;
    assert key[..offset] == identity + machine + invertedTs;
    CopyInto(key, offset, conv);
    assert key[..] == identity + machine + invertedTs + conv;
  }
}
