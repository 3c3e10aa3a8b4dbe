/** The incremented prefix used as the start of a reverse scan. */
module Seek {
  import opened ByteStrings

  ghost predicate AllFF(v: Bytes) {
    forall i :: 0 <= i < |v| ==> v[i] == 255
  }

  /** `v` plus one with carry from the right, the carry out of the first byte dropped. */
  ghost function Carried(v: Bytes): (r: Bytes)
    ensures |r| == |v|
  {
    if v == [] then []
    else
      var n := |v| - 1;
      if v[n] < 255 then v[..n] + [v[n] + 1] else Carried(v[..n]) + [0]
  }

  /** The two places that carry out of the first byte: `DmService` puts a byte in front,
      the stand-alone paginator puts one behind. */
  datatype Overflow = InsertFront | PushBack

  ghost function Incremented(v: Bytes, overflow: Overflow): Bytes {
    if !AllFF(v) then Carried(v)
    else if overflow.InsertFront? then [1] + Carried(v)
    else Carried(v) + [1]
  }

  lemma UpdateLast(head: Bytes, done: Bytes, x: Byte)
    requires head != []
    ensures var n := |head| - 1;
      && (head + done)[n := x] == head[..n] + [x] + done == head[..n] + ([x] + done)
      && (head + done)[n] == head[n]
  {
  }

  /** The carry at the last byte of `head`, with the bytes after it already in `done`. */
  lemma CarryStops(head: Bytes, done: Bytes)
    requires head != [] && head[|head| - 1] < 255
    ensures var n := |head| - 1; Carried(head) + done == head[..n] + [head[n] + 1] + done
  {
  }

  lemma CarryGoesOn(head: Bytes, done: Bytes)
    requires head != [] && head[|head| - 1] == 255
    ensures Carried(head) + done == Carried(head[..|head| - 1]) + ([0] + done)
  {
    AppendAssociates(Carried(head[..|head| - 1]), [0], done);
  }

  lemma AppendAssociates(a: Bytes, b: Bytes, c: Bytes)
    ensures a + b + c == a + (b + c)
  {
  }

  method IncrementBytes(bytes: Bytes, overflow: Overflow) returns (v: Bytes)
    ensures v == Incremented(bytes, overflow)
  {
    v := bytes;
    var i := |v|;
    ghost var done: Bytes := [];
    assert bytes[..i] == bytes;
    while i > 0
      invariant 0 <= i <= |v| == |bytes|
      invariant v == bytes[..i] + done
      invariant forall j :: i <= j < |v| ==> bytes[j] == 255
      invariant Carried(bytes) == Carried(bytes[..i]) + done
    {
      ghost var head := bytes[..i];
      assert head[..i - 1] == bytes[..i - 1];
      UpdateLast(head, done, v[i - 1]);
      if v[i - 1] < 255 {
        CarryStops(head, done);
        UpdateLast(head, done, v[i - 1] + 1);
        v := v[i - 1 := v[i - 1] + 1];
        return;
      }
      CarryGoesOn(head, done);
      UpdateLast(head, done, 0);
      v := v[i - 1 := 0];
      done := [0] + done;
      i := i - 1;
    }
    v := if overflow.InsertFront? then [1] + v else v + [1];
  }

  lemma {:induction false} CarriedAddsOne(v: Bytes)
    requires !AllFF(v)
    ensures BeNat(Carried(v)) == BeNat(v) + 1
  {
    var n := |v| - 1;
    var r := Carried(v);
    if v[n] < 255 {
      assert r[..n] == v[..n];
    } else {
      assert !AllFF(v[..n]);
      CarriedAddsOne(v[..n]);
      assert r[..n] == Carried(v[..n]);
    }
  }

  /** When every byte is 0xFF all of them turn to 0, and a 1 comes in front or behind. */
  lemma {:induction false} OverflowForms(v: Bytes, i: nat)
    requires AllFF(v) && i < |v|
    ensures |Incremented(v, InsertFront)| == |v| + 1 && Incremented(v, InsertFront)[0] == 1 && Incremented(v, InsertFront)[i + 1] == 0
    ensures |Incremented(v, PushBack)| == |v| + 1 && Incremented(v, PushBack)[|v|] == 1 && Incremented(v, PushBack)[i] == 0
  {
    var n := |v| - 1;
    if i == n {
      assert Carried(v)[n] == 0;
    } else {
      OverflowForms(v[..n], i);
      assert Carried(v)[i] == Carried(v[..n])[i];
      assert Incremented(v[..n], PushBack)[i] == Carried(v[..n])[i];
    }
  }

  /** Cut anywhere, the incremented number is equal to the original or one more. */
  lemma {:induction false} CutsDifferByOne(p: Bytes, u: Bytes, j: nat)
    requires |p| == |u| && j <= |p| && BeNat(u) == BeNat(p) + 1
    ensures BeNat(p[..j]) <= BeNat(u[..j]) <= BeNat(p[..j]) + 1
    decreases |p|
  {
    var n := |p|;
    if j < n {
      var p', u' := p[..n - 1], u[..n - 1];
      assert p'[..j] == p[..j] && u'[..j] == u[..j];
      if BeNat(u') == BeNat(p') + 1 {
        CutsDifferByOne(p', u', j);
      } else {
        assert BeNat(u') == BeNat(p');
        BeNatInjective(u', p');
      }
    } else {
      assert p[..j] == p && u[..j] == u;
    }
  }

  /** Nothing lies between the extensions of a prefix and its increment except the increment
      itself cut short. */
  lemma SeekGap(p: Bytes, u: Bytes, k: Bytes)
    requires |p| == |u| && BeNat(u) == BeNat(p) + 1
    requires LexLess(p, k) && LexLeq(k, u)
    ensures p <= k || k <= u
  {
    var n := |p|;
    var j := if |k| < n then |k| else n;
    var h, t := k[..j], k[j..];
    assert p == p[..j] + p[j..] && u == u[..j] + u[j..] && k == h + t;
    LexSplit(p[..j], p[j..], h, t);
    LexSplit(h, t, u[..j], u[j..]);
    LexIsNumeric(p[..j], h);
    LexIsNumeric(h, u[..j]);
    CutsDifferByOne(p, u, j);
    BeNatInjective(h, p[..j]);
    BeNatInjective(h, u[..j]);
    LexTotal(u, u);
    if |k| < n {
      assert t == [];
    } else {
      assert u[j..] == [] && h <= k && u[..j] == u;
    }
  }

  ghost predicate AboveExtensions(k: Bytes, v: Bytes) {
    forall rest :: LexLess(v + rest, k)
  }

  /** The increment lies above every extension of the prefix exactly when some byte is below 0xFF. */
  lemma AboveExtensionsIff(v: Bytes, overflow: Overflow)
    ensures AboveExtensions(Incremented(v, overflow), v) <==> !AllFF(v)
  {
    var u := Incremented(v, overflow);
    if !AllFF(v) {
      CarriedAddsOne(v);
      LexIsNumeric(v, u);
      forall rest ensures LexLess(v + rest, u) {
        assert u == u + [];
        LexSplit(v, rest, u, []);
      }
    } else if v == [] {
      assert u == [1];
      assert !LexLess([] + [2], [1]);
      assert v + [2] == [] + [2];
    } else {
      assert v + [] == v;
      CarriedAllFF(v);
      assert u[0] < v[0];
      assert !LexLess(v + [], u);
    }
  }

  lemma {:induction false} CarriedAllFF(v: Bytes)
    requires AllFF(v)
    ensures forall i :: 0 <= i < |v| ==> Carried(v)[i] == 0
  {
    if v == [] {
    } else {
      CarriedAllFF(v[..|v| - 1]);
    }
  }

  ghost predicate LeastAbove(u: Bytes, v: Bytes) {
    forall k :: AboveExtensions(k, v) ==> LexLeq(u, k)
  }

  /** The paginator's comment calls the increment the smallest key above the prefix's range.
      That holds exactly when the last byte did not carry. */
  lemma LeastAboveIff(v: Bytes, overflow: Overflow)
    requires !AllFF(v)
    ensures LeastAbove(Incremented(v, overflow), v) <==> v[|v| - 1] < 255
  {
    if v[|v| - 1] < 255 {
      NoCarryIsLeast(v, overflow);
    } else {
      CarryIsNotLeast(v, overflow);
    }
  }

  lemma NoCarryIsLeast(v: Bytes, overflow: Overflow)
    requires !AllFF(v) && v[|v| - 1] < 255
    ensures LeastAbove(Incremented(v, overflow), v)
  {
    var u := Incremented(v, overflow);
    CarriedAddsOne(v);
    forall k | AboveExtensions(k, v) ensures LexLeq(u, k) {
      LexTotal(u, k);
      if LexLess(k, u) {
        assert LexLess(v + [], k) && v + [] == v;
        SeekGap(v, u, k);
        if v <= k {
          assert LexLess(v + k[|v|..], k) && k == v + k[|v|..];
          LexTotal(k, k);
        } else {
          ShortCutNotAbove(v, u, k);
        }
      }
    }
  }

  lemma CarryIsNotLeast(v: Bytes, overflow: Overflow)
    requires !AllFF(v) && v[|v| - 1] == 255
    ensures !LeastAbove(Incremented(v, overflow), v)
  {
    var n := |v| - 1;
    var w := Incremented(v[..n], overflow);
    CarriedCut(v);
    AboveExtensionsIff(v[..n], overflow);
    forall rest ensures LexLess(v + rest, w) {
      assert v + rest == v[..n] + ([255] + rest);
    }
    assert AboveExtensions(w, v);
    assert w == w + [];
    LexTotal(w, w);
    LexSplit(w, [0], w, []);
    assert !LexLeq(w + [0], w);
  }

  lemma CarriedCut(v: Bytes)
    requires v != [] && v[|v| - 1] == 255
    ensures Carried(v) == Carried(v[..|v| - 1]) + [0]
  {
  }

  /** With no carry, a proper cut of the increment is a cut of the prefix, hence not above it. */
  lemma ShortCutNotAbove(v: Bytes, u: Bytes, k: Bytes)
    requires v != [] && v[|v| - 1] < 255 && u == Carried(v)
    requires k <= u && k != u
    ensures !LexLess(v, k)
  {
    assert k == v[..|k|];
    assert v == k + v[|k|..] && k == k + [];
    LexSplit(k, v[|k|..], k, []);
    LexTotal(k, k);
  }
}
