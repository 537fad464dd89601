/**
 The tie-breaker: the first nonzero hardware address of the machine, six bytes
 packed into one integer by shifting and or-ing.
 */
module Mac {
  import opened Xdr

  datatype Option<+T> = None | Some(value: T)

  // ----- bitwise or, on naturals

  function Pow2(k: nat): (p: nat)
    ensures p > 0
  {
    if k == 0 then 1 else 2 * Pow2(k - 1)
  }

  function Or(x: nat, y: nat): nat
    decreases x + y
  {
    if x == 0 then y
    else if y == 0 then x
    else 2 * Or(x / 2, y / 2) + (if x % 2 == 1 || y % 2 == 1 then 1 else 0)
  }

  /** Or-ing numbers that share no bits adds them. */
  lemma {:induction false} OrDisjoint(x: nat, y: nat, k: nat)
    requires y < Pow2(k)
    ensures Or(x * Pow2(k), y) == x * Pow2(k) + y
  {
    if k == 0 {
    } else if x == 0 {
    } else if y != 0 {
      var p := Pow2(k - 1);
      assert x * Pow2(k) == 2 * (x * p);
      assert x * p > 0;
      OrDisjoint(x, y / 2, k - 1);
      assert 2 * (x * p) / 2 == x * p;
    }
  }

  // ----- packing

  /** The bytes as a number, most significant first. */
  function Packed(b: seq<Byte>): nat {
    if b == [] then 0 else Packed(b[..|b| - 1]) * 256 + b[|b| - 1]
  }

  /** The bytes or-ed into an empty result at their shifts are the packed number. */
  method PackAddress(b: seq<Byte>) returns (result: nat)
    requires |b| >= 6
    ensures result == Packed(b[..6])
  {
    result := 0;
    var ptr := 0;
    while ptr < 6
      invariant 0 <= ptr <= 6
      invariant result == Packed(b[..ptr]) * Pow2(8 * (6 - ptr))
    {
      var i := 5 - ptr;
      PackNext(b, ptr, i);
      result := Or(result, b[ptr] * Pow2(8 * i));
      ptr := ptr + 1;
    }
  }

  lemma Scaled(x: nat, d: Byte, p: nat)
    requires p > 0
    ensures d * p < 256 * p && x * (256 * p) + d * p == (x * 256 + d) * p
  {
  }

  lemma PackStep(x: nat, d: Byte, i: nat)
    ensures Or(x * Pow2(8 * (i + 1)), d * Pow2(8 * i)) == (x * 256 + d) * Pow2(8 * i)
  {
    var p := Pow2(8 * i);
    EightMore(8 * i);
    assert Pow2(8 * (i + 1)) == 256 * p;
    Scaled(x, d, p);
    OrDisjoint(x, d * p, 8 * (i + 1));
  }

  lemma PackNext(b: seq<Byte>, ptr: nat, i: nat)
    requires ptr < |b|
    ensures Or(Packed(b[..ptr]) * Pow2(8 * (i + 1)), b[ptr] * Pow2(8 * i)) == Packed(b[..ptr + 1]) * Pow2(8 * i)
  {
    assert b[..ptr + 1][..ptr] == b[..ptr];
    PackStep(Packed(b[..ptr]), b[ptr], i);
  }

  lemma EightMore(k: nat)
    ensures Pow2(k + 8) == 256 * Pow2(k)
  {
    assert Pow2(k + 8) == 2 * Pow2(k + 7) == 4 * Pow2(k + 6) == 8 * Pow2(k + 5) == 16 * Pow2(k + 4);
    assert Pow2(k + 4) == 2 * Pow2(k + 3) == 4 * Pow2(k + 2) == 8 * Pow2(k + 1) == 16 * Pow2(k);
  }

  /** The address of the first interface that has a nonzero one. */
  function Selected(ifs: seq<Option<seq<Byte>>>): nat
    requires forall k :: 0 <= k < |ifs| && ifs[k].Some? ==> |ifs[k].value| >= 6
  {
    if ifs == [] then 0
    else if ifs[0].Some? && Packed(ifs[0].value[..6]) != 0 then Packed(ifs[0].value[..6])
    else Selected(ifs[1..])
  }

  /** The search over the interfaces; an entry without a link-layer address is None. */
  method GetMacAddress(ifs: seq<Option<seq<Byte>>>) returns (result: nat)
    requires forall k :: 0 <= k < |ifs| && ifs[k].Some? ==> |ifs[k].value| >= 6
    ensures result == Selected(ifs)
    ensures result == 0 <==> forall k :: 0 <= k < |ifs| && ifs[k].Some? ==> Packed(ifs[k].value[..6]) == 0
  {
    result := 0;
    var n := 0;
    while n < |ifs|
      invariant 0 <= n <= |ifs| && result == 0
      invariant Selected(ifs) == Selected(ifs[n..])
      invariant forall k :: 0 <= k < n && ifs[k].Some? ==> Packed(ifs[k].value[..6]) == 0
    {
      assert ifs[n..][1..] == ifs[n + 1..];
      if ifs[n].Some? {
        result := PackAddress(ifs[n].value);
        if result != 0 { return; }
      }
      n := n + 1;
    }
  }

  /** The interface has no link-layer address, or an all-zero one. */
  ghost predicate Useless(itf: Option<seq<Byte>>) {
    itf.Some? ==> |itf.value| >= 6 && Packed(itf.value[..6]) == 0
  }

  /** The first useful interface decides, wherever it stands. */
  lemma {:induction false} SelectedAt(ifs: seq<Option<seq<Byte>>>, k: nat)
    requires forall j :: 0 <= j < |ifs| && ifs[j].Some? ==> |ifs[j].value| >= 6
    requires k < |ifs| && !Useless(ifs[k]) && forall j :: 0 <= j < k ==> Useless(ifs[j])
    ensures Selected(ifs) == Packed(ifs[k].value[..6])
    decreases k
  {
    if k > 0 {
      assert Useless(ifs[0]);
      SelectedAt(ifs[1..], k - 1);
    }
  }

  // ----- the order of addresses

  ghost predicate LexLess(a: seq<Byte>, b: seq<Byte>)
    requires |a| == |b|
  {
    exists k :: 0 <= k < |a| && a[..k] == b[..k] && a[k] < b[k]
  }

  lemma LexSnoc(a: seq<Byte>, b: seq<Byte>)
    requires |a| == |b| > 0
    ensures var n := |a| - 1;
      LexLess(a, b) <==> LexLess(a[..n], b[..n]) || (a[..n] == b[..n] && a[n] < b[n])
  {
    var n := |a| - 1;
    if LexLess(a[..n], b[..n]) {
      var k :| 0 <= k < n && a[..n][..k] == b[..n][..k] && a[..n][k] < b[..n][k];
      assert a[..n][..k] == a[..k] && b[..n][..k] == b[..k];
    }
    if LexLess(a, b) {
      var k :| 0 <= k < |a| && a[..k] == b[..k] && a[k] < b[k];
      if k < n {
        assert a[..n][..k] == a[..k] && b[..n][..k] == b[..k];
        assert a[..n][k] < b[..n][k];
      }
    }
  }

  /** Numeric order is the lexicographic order of the bytes, and equal numbers come from equal bytes. */
  lemma {:induction false} PackedOrder(a: seq<Byte>, b: seq<Byte>)
    requires |a| == |b|
    ensures Packed(a) < Packed(b) <==> LexLess(a, b)
    ensures Packed(a) == Packed(b) <==> a == b
    decreases |a|
  {
    if a != [] {
      var n := |a| - 1;
      PackedOrder(a[..n], b[..n]);
      LexSnoc(a, b);
      assert a == a[..n] + [a[n]] && b == b[..n] + [b[n]];
    }
  }

  function Pow256(k: nat): nat {
    if k == 0 then 1 else 256 * Pow256(k - 1)
  }

  lemma {:induction false} PackedBound(b: seq<Byte>)
    ensures Packed(b) < Pow256(|b|)
    decreases |b|
  {
    if b != [] {
      PackedBound(b[..|b| - 1]);
    }
  }

  /** A packed hardware address is below 2^48, so it fits the 64-bit tie-breaker. */
  lemma PackedFits(b: seq<Byte>)
    requires |b| == 6
    ensures Packed(b) < 0x1_0000_0000_0000 < TWO64
  {
    PackedBound(b);
    assert Pow256(6) == 0x1_0000_0000_0000;
  }
}
