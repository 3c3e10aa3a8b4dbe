/** One column family: a map from byte keys to decoded values, iterated in key order. */
module OrderedStore {
  import opened ByteStrings
  import opened Wrappers

  predicate Ascending(s: seq<Bytes>) {
    forall i, j :: 0 <= i < j < |s| ==> LexLess(s[i], s[j])
  }

  predicate IsLeast(k: Bytes, keys: set<Bytes>) {
    k in keys && forall o :: o in keys ==> LexLeq(k, o)
  }

  lemma LeastExists(keys: set<Bytes>)
    requires keys != {}
    ensures exists k :: IsLeast(k, keys)
  {
    var k :| k in keys;
    if keys == {k} {
      assert IsLeast(k, keys);
    } else {
      var rest := keys - {k};
      LeastExists(rest);
      var l :| IsLeast(l, rest);
      LexTotal(k, l);
      if LexLess(k, l) {
        forall o | o in keys ensures LexLeq(k, o) {
          if o != k { LexTransitive(k, l, o); }
        }
        assert IsLeast(k, keys);
      } else {
        assert IsLeast(l, keys);
      }
    }
  }

  lemma LeastUnique(keys: set<Bytes>)
    ensures forall a, b :: IsLeast(a, keys) && IsLeast(b, keys) ==> a == b
  {
    forall a, b | IsLeast(a, keys) && IsLeast(b, keys) ensures a == b {
      LexTotal(a, b);
    }
  }

  /** The keys in ascending order. */
  function SortedKeys(keys: set<Bytes>): seq<Bytes> {
    if keys == {} then [] else
      LeastExists(keys);
      LeastUnique(keys);
      var k :| k in keys && IsLeast(k, keys);
      [k] + SortedKeys(keys - {k})
  }

  lemma {:induction false} SortedKeysSorts(keys: set<Bytes>)
    ensures Ascending(SortedKeys(keys)) && |SortedKeys(keys)| == |keys|
    ensures forall k :: k in SortedKeys(keys) <==> k in keys
  {
    if keys == {} {
    } else {
      LeastExists(keys);
      LeastUnique(keys);
      var k :| IsLeast(k, keys);
      var rest := SortedKeys(keys - {k});
      assert SortedKeys(keys) == [k] + rest;
      SortedKeysSorts(keys - {k});
      forall i | 0 <= i < |rest| ensures LexLess(k, rest[i]) {
        assert rest[i] in rest;
      }
    }
  }

  lemma {:induction false} AscendingUnique(a: seq<Bytes>, b: seq<Bytes>)
    requires Ascending(a) && Ascending(b)
    requires forall k :: k in a <==> k in b
    ensures a == b
  {
    assert a != [] ==> a[0] in a;
    assert b != [] ==> b[0] in b;
    if a == [] {
    } else {
      assert a[0] in b && b[0] in a;
      LexTotal(a[0], b[0]);
      assert a[0] == b[0];
      forall k ensures k in a[1..] <==> k in b[1..] {
        TailMembers(a, k);
        TailMembers(b, k);
      }
      AscendingUnique(a[1..], b[1..]);
      assert a == [a[0]] + a[1..] && b == [b[0]] + b[1..];
    }
  }

  lemma TailMembers(a: seq<Bytes>, k: Bytes)
    requires Ascending(a) && a != []
    ensures k in a[1..] <==> k in a && k != a[0]
  {
    LexTotal(k, k);
    assert forall i :: 0 <= i < |a[1..]| ==> a[1..][i] == a[i + 1];
  }

  /** Where an iterator started at `seek` goes forward. */
  function KeysFrom(keys: set<Bytes>, seek: Bytes): seq<Bytes> {
    SortedKeys(set k | k in keys && LexLeq(seek, k))
  }

  /** The keys an iterator started at `seek` meets going backward, in ascending order. */
  function KeysUpTo(keys: set<Bytes>, seek: Bytes): seq<Bytes> {
    SortedKeys(set k | k in keys && LexLeq(k, seek))
  }

  ghost function KeysWithPrefix(keys: set<Bytes>, prefix: Bytes): seq<Bytes> {
    SortedKeys(set k | k in keys && prefix <= k)
  }

  ghost function Pairs<V>(data: map<Bytes, V>, keys: seq<Bytes>): seq<(Bytes, V)>
    requires forall k :: k in keys ==> k in data
  {
    seq(|keys|, i requires 0 <= i < |keys| => (keys[i], data[keys[i]]))
  }

  ghost function Scan<V>(data: map<Bytes, V>, prefix: Bytes): seq<(Bytes, V)> {
    SortedKeysSorts(set k | k in data.Keys && prefix <= k);
    Pairs(data, KeysWithPrefix(data.Keys, prefix))
  }

  /** What a prefix lookup lists: keys with the prefix, ascending, each once. */
  lemma PrefixKeys(keys: set<Bytes>, prefix: Bytes)
    ensures Ascending(KeysWithPrefix(keys, prefix))
    ensures |KeysWithPrefix(keys, prefix)| == |set k | k in keys && prefix <= k|
    ensures forall k :: k in KeysWithPrefix(keys, prefix) <==> k in keys && prefix <= k
  {
    SortedKeysSorts(set k | k in keys && prefix <= k);
  }

  lemma NoneAfterStop(keys: set<Bytes>, prefix: Bytes, stop: nat, i: nat)
    requires stop < |KeysFrom(keys, prefix)| ==> !(prefix <= KeysFrom(keys, prefix)[stop])
    requires i < |KeysFrom(keys, prefix)| && prefix <= KeysFrom(keys, prefix)[i]
    ensures i < stop
  {
    var all := KeysFrom(keys, prefix);
    SortedKeysSorts(set k | k in keys && LexLeq(prefix, k));
    if i >= stop {
      assert all[stop] in all;
      PrefixConvex(prefix, all[stop], all[i]);
    }
  }

  /** A forward scan that stops at the first key without the prefix has met them all. */
  lemma ScanIsExact(keys: set<Bytes>, prefix: Bytes, stop: nat)
    requires stop <= |KeysFrom(keys, prefix)|
    requires forall i :: 0 <= i < stop ==> prefix <= KeysFrom(keys, prefix)[i]
    requires stop < |KeysFrom(keys, prefix)| ==> !(prefix <= KeysFrom(keys, prefix)[stop])
    ensures KeysFrom(keys, prefix)[..stop] == KeysWithPrefix(keys, prefix)
  {
    var all, found := KeysFrom(keys, prefix), KeysWithPrefix(keys, prefix);
    SortedKeysSorts(set k | k in keys && LexLeq(prefix, k));
    SortedKeysSorts(set k | k in keys && prefix <= k);
    forall k ensures k in all[..stop] <==> k in found {
      if k in found {
        PrefixIsLeast(prefix, k);
        assert k in all;
        var i :| 0 <= i < |all| && all[i] == k;
        NoneAfterStop(keys, prefix, stop, i);
      }
      if k in all[..stop] {
        assert k in all;
      }
    }
    AscendingUnique(all[..stop], found);
  }

  class ColumnFamily<V> {
    var data: map<Bytes, V>

    constructor ()
      ensures data == map[]
    {
      data := map[];
    }

    method Put(key: Bytes, value: V)
      modifies this
      ensures data == old(data)[key := value]
    {
      data := data[key := value];
    }

    method Get(key: Bytes) returns (value: Option<V>)
      ensures value == if key in data then Some(data[key]) else None
    {
      value := if key in data then Some(data[key]) else None;
    }

    method Delete(key: Bytes)
      modifies this
      ensures data == old(data) - {key}
    {
      data := data - {key};
    }

    method IterFrom(seek: Bytes) returns (keys: seq<Bytes>)
      ensures keys == KeysFrom(data.Keys, seek)
      ensures forall i :: 0 <= i < |keys| ==> keys[i] in data
    {
      SortedKeysSorts(set k | k in data.Keys && LexLeq(seek, k));
      keys := KeysFrom(data.Keys, seek);
      forall i | 0 <= i < |keys| ensures keys[i] in data {
        assert keys[i] in keys;
      }
    }

    method IterUpTo(seek: Bytes) returns (keys: seq<Bytes>)
      ensures keys == KeysUpTo(data.Keys, seek)
      ensures forall i :: 0 <= i < |keys| ==> keys[i] in data
    {
      SortedKeysSorts(set k | k in data.Keys && LexLeq(k, seek));
      keys := KeysUpTo(data.Keys, seek);
      forall i | 0 <= i < |keys| ensures keys[i] in data {
        assert keys[i] in keys;
      }
    }

    method PrefixScan(prefix: Bytes) returns (pairs: seq<(Bytes, V)>)
      ensures pairs == Scan(data, prefix)
    {
      var keys := IterFrom(prefix);
      pairs := [];
      var i := 0;
      while i < |keys|
        invariant 0 <= i <= |keys|
        invariant forall j :: 0 <= j < i ==> prefix <= keys[j]
        invariant forall k :: k in keys[..i] ==> k in data
        invariant pairs == Pairs(data, keys[..i])
      {
        var k := keys[i];
        assert keys[..i + 1] == keys[..i] + [k];
        if !(prefix <= k) {
          break;
        }
        pairs := pairs + [(k, data[k])];
        i := i + 1;
      }
      ScanIsExact(data.Keys, prefix, i);
    }
  }
}
