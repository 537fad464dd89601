/**
 What stands where on the wire, byte by byte: units with their most significant
 byte first, padding zero, the members of every structure at their offsets, the
 elements of every array one after the other, and the four units of a lock
 request.
 */
module Layout {
  import opened Xdr
  import opened Shapes
  import opened Protocol
  import opened Tapes
  import opened XdrStreams
  import opened Systems
  import Mac

  // ----- units

  lemma {:induction false} PackedConcat(a: seq<Byte>, b: seq<Byte>)
    ensures Mac.Packed(a + b) == Mac.Packed(a) * Mac.Pow256(|b|) + Mac.Packed(b)
    decreases |b|
  {
    if b == [] {
      assert a + b == a;
    } else {
      var front, p := b[..|b| - 1], Mac.Pow256(|b| - 1);
      PackedConcat(a, front);
      assert (a + b)[..|a + b| - 1] == a + front;
      assert Mac.Packed(a) * p * 256 == Mac.Packed(a) * (256 * p);
    }
  }

  /** Reading a unit gives the number its bytes spell, most significant first. */
  lemma FromWordIsPacked(w: seq<Byte>)
    requires |w| == 4
    ensures FromWord(w) == Mac.Packed(w)
  {
    assert w[..3][..2] == w[..2] && w[..2][..1] == w[..1] && w[..1][..0] == [];
    assert Mac.Packed(w[..1]) == w[0];
    assert Mac.Packed(w[..2]) == Mac.Packed(w[..1]) * 256 + w[1];
    assert Mac.Packed(w[..3]) == Mac.Packed(w[..2]) * 256 + w[2];
  }

  /** Writing a number gives the unit whose bytes spell it. */
  lemma WordIsPacked(n: int)
    requires 0 <= n < TWO32
    ensures Mac.Packed(Word(n)) == n
  {
    WordInverse(n);
    FromWordIsPacked(Word(n));
  }

  /** Units sort as the numbers they carry, so the first byte weighs most. */
  lemma WordOrder(n: int, m: int)
    requires 0 <= n < TWO32 && 0 <= m < TWO32
    ensures n < m <==> Mac.LexLess(Word(n), Word(m))
  {
    WordIsPacked(n);
    WordIsPacked(m);
    Mac.PackedOrder(Word(n), Word(m));
  }

  /** A 64-bit number is spelled by eight bytes, most significant first. */
  lemma HyperIsPacked(n: int)
    requires 0 <= n < TWO64
    ensures |Encode(UHyper, Num(n))| == 8 && Mac.Packed(Encode(UHyper, Num(n))) == n
  {
    var hi, lo := n / TWO32, n % TWO32;
    WordIsPacked(hi);
    WordIsPacked(lo);
    PackedConcat(Word(hi), Word(lo));
    assert Mac.Pow256(4) == TWO32;
  }

  /** A 16-bit number stands in the last two bytes of its unit; the first two are zero. */
  lemma ShortLayout(n: int)
    requires 0 <= n < TWO16
    ensures var b := Encode(UShort, Num(n)); |b| == 4 && b[0] == 0 && b[1] == 0 && Mac.Packed(b) == n
  {
    WordIsPacked(n);
  }

  /** A signed number is spelled modulo 2^32, its sign in the first bit. */
  lemma IntLayout(n: int)
    requires -TWO31 <= n < TWO31
    ensures var b := Encode(Int, Num(n));
      && |b| == 4 && (Mac.Packed(b) - n) % 0x1_0000_0000 == 0
      && (b[0] >= 128 <==> n < 0)
  {
    WordIsPacked(Unsigned(n));
  }

  /** Variable-length data: its length, its bytes, and zeros up to the next unit. */
  lemma OpaqueLayout(bs: seq<Byte>)
    requires |bs| < TWO32
    ensures var b := Encode(Opaque, Raw(bs));
      && 4 + |bs| <= |b| < 4 + |bs| + 4 && |b| % 4 == 0
      && Mac.Packed(b[..4]) == |bs| && b[4..4 + |bs|] == bs
      && forall i :: 4 + |bs| <= i < |b| ==> b[i] == 0
  {
    WordIsPacked(|bs|);
    Padded(|bs|);
    ThreeParts(Word(|bs|), bs, Zeros(Pad(|bs|)));
  }

  lemma Padded(n: nat)
    ensures Pad(n) < 4 && (4 + n + Pad(n)) % 4 == 0
  {
  }

  lemma ThreeParts(a: seq<Byte>, b: seq<Byte>, c: seq<Byte>)
    ensures var s := a + b + c;
      && |s| == |a| + |b| + |c| && s[..|a|] == a && s[|a|..|a| + |b|] == b
      && forall i :: |a| + |b| <= i < |s| ==> s[i] == c[i - |a| - |b|]
  {
  }

  // ----- reading any bytes

  lemma UnitRead(w: seq<Byte>, rest: seq<Byte>)
    requires |w| == 4
    ensures GetWord(w + rest) == Ok(Mac.Packed(w), rest)
  {
    FromWordIsPacked(w);
    assert (w + rest)[..4] == w && (w + rest)[4..] == rest;
  }

  /** Whatever the four bytes: an unsigned int is what they spell, a 16-bit number what the last two spell. */
  lemma UnsignedRead(w: seq<Byte>, rest: seq<Byte>)
    requires |w| == 4
    ensures Decode(UInt, w + rest) == Ok(Num(Mac.Packed(w)), rest)
    ensures Decode(UShort, w + rest) == Ok(Num(Mac.Packed(w[2..])), rest)
  {
    UnitRead(w, rest);
    PackedConcat(w[..2], w[2..]);
    Mac.PackedBound(w[2..]);
    assert w[..2] + w[2..] == w && Mac.Pow256(2) == TWO16;
    LowPart(Mac.Packed(w[..2]), Mac.Packed(w[2..]));
  }

  lemma LowPart(hi: nat, lo: nat)
    requires lo < TWO16
    ensures (hi * TWO16 + lo) % TWO16 == lo
  {
  }

  /** A signed int is the one number of its range that the bytes spell modulo 2^32. */
  lemma SignedRead(w: seq<Byte>, rest: seq<Byte>)
    requires |w| == 4
    ensures var p := Decode(Int, w + rest);
      && p.Ok? && p.rest == rest && p.value.Num?
      && -0x8000_0000 <= p.value.n < 0x8000_0000 && (Mac.Packed(w) - p.value.n) % 0x1_0000_0000 == 0
  {
    UnitRead(w, rest);
    FromWordIsPacked(w);
  }

  lemma HyperRead(w: seq<Byte>, rest: seq<Byte>)
    requires |w| == 8
    ensures Decode(UHyper, w + rest) == Ok(Num(Mac.Packed(w)), rest)
  {
    assert w + rest == w[..4] + (w[4..] + rest);
    UnitRead(w[..4], w[4..] + rest);
    UnitRead(w[4..], rest);
    PackedConcat(w[..4], w[4..]);
    assert w[..4] + w[4..] == w && Mac.Pow256(4) == TWO32;
  }

  lemma PadIs(n: nat, p: nat)
    requires p < 4 && (n + p) % 4 == 0
    ensures Pad(n) == p
  {
  }

  lemma Parts(a: seq<Byte>, b: seq<Byte>, c: seq<Byte>)
    ensures (a + (b + c))[..|a|] == a && (a + (b + c))[|a| + |b|..] == c
  {
  }

  /** Padding is skipped, whatever it holds. */
  lemma OpaqueRead(w: seq<Byte>, bs: seq<Byte>, pad: seq<Byte>, rest: seq<Byte>)
    requires |w| == 4 && Mac.Packed(w) == |bs| && |pad| < 4 && (|bs| + |pad|) % 4 == 0
    ensures Decode(Opaque, w + (bs + (pad + rest))) == Ok(Raw(bs), rest)
  {
    var tail := bs + (pad + rest);
    UnitRead(w, tail);
    PadIs(|bs|, |pad|);
    Parts(bs, pad, rest);
  }

  // ----- ranges

  lemma PowerValues()
    ensures Mac.Pow2(16) == TWO16 && Mac.Pow2(31) == TWO31 && Mac.Pow2(32) == TWO32 && Mac.Pow2(64) == TWO64
  {
    Mac.EightMore(0);
    Mac.EightMore(8);
    Mac.EightMore(16);
    Mac.EightMore(24);
    Mac.EightMore(32);
    Mac.EightMore(40);
    Mac.EightMore(48);
    Mac.EightMore(56);
    assert Mac.Pow2(32) == 2 * Mac.Pow2(31);
  }

  /** Every number of its C type has a place on the wire, and no other. */
  lemma Ranges(n: int, bs: seq<Byte>)
    ensures Fits(UShort, Num(n)) <==> 0 <= n < Mac.Pow2(16)
    ensures Fits(UInt, Num(n)) <==> 0 <= n < Mac.Pow2(32)
    ensures Fits(Int, Num(n)) <==> -(Mac.Pow2(31) as int) <= n < Mac.Pow2(31)
    ensures Fits(UHyper, Num(n)) <==> 0 <= n < Mac.Pow2(64)
    ensures Fits(Opaque, Raw(bs)) <==> |bs| < Mac.Pow2(32)
  {
    PowerValues();
  }

  // ----- places

  /** The encoding of the value stands in the bytes at the offset. */
  ghost predicate PlacedAt(b: seq<Byte>, off: nat, sh: Shape, v: Value) {
    && Fits(sh, v)
    && off + |Encode(sh, v)| <= |b|
    && b[off..off + |Encode(sh, v)|] == Encode(sh, v)
  }

  lemma FixedLength(sh: Shape, v: Value)
    requires Fits(sh, v) && NoOpaque(sh)
    ensures |Encode(sh, v)| == FixedSize(sh)
  {
    EncodedSize(sh, v);
    NoOpaqueSize(sh, v);
  }

  lemma Assoc(x: seq<Byte>, y: seq<Byte>, z: seq<Byte>)
    ensures x + (y + z) == x + y + z
  {
  }

  lemma Middle(a: seq<Byte>, m: seq<Byte>, c: seq<Byte>)
    ensures (a + (m + c))[|a|..|a| + |m|] == m
  {
  }

  /** The members encode to b. */
  ghost predicate Codes(fs: seq<Shape>, vs: seq<Value>, b: seq<Byte>) {
    FieldsFit(fs, vs) && EncodeFields(fs, vs) == b
  }

  lemma FieldsCons(sh: Shape, fs: seq<Shape>, x: Value, vs: seq<Value>, b: seq<Byte>)
    requires Fits(sh, x) && Codes(fs, vs, b)
    ensures Codes([sh] + fs, [x] + vs, Encode(sh, x) + b)
  {
    assert ([sh] + fs)[1..] == fs && ([x] + vs)[1..] == vs;
  }

  lemma FieldsFirst(fs: seq<Shape>, vs: seq<Value>, b: seq<Byte>) returns (code: seq<Byte>, rest: seq<Byte>)
    requires Codes(fs, vs, b) && fs != []
    ensures |vs| == |fs| && Fits(fs[0], vs[0]) && code == Encode(fs[0], vs[0])
    ensures Codes(fs[1..], vs[1..], rest) && b == code + rest
  {
    code, rest := Encode(fs[0], vs[0]), EncodeFields(fs[1..], vs[1..]);
  }

  lemma {:induction false} FieldsAppend(fs: seq<Shape>, vs: seq<Value>, b: seq<Byte>, gs: seq<Shape>, ws: seq<Value>, d: seq<Byte>)
    requires Codes(fs, vs, b) && Codes(gs, ws, d)
    ensures Codes(fs + gs, vs + ws, b + d)
    decreases |fs|
  {
    if fs == [] {
      assert fs + gs == gs && vs + ws == ws && b + d == d;
    } else {
      var code, rest := FieldsFirst(fs, vs, b);
      FieldsAppend(fs[1..], vs[1..], rest, gs, ws, d);
      FieldsCons(fs[0], fs[1..] + gs, vs[0], vs[1..] + ws, rest + d);
      assert fs + gs == [fs[0]] + (fs[1..] + gs) && vs + ws == [vs[0]] + (vs[1..] + ws);
      Assoc(code, rest, d);
    }
  }

  lemma {:induction false} FieldsFitHere(fs: seq<Shape>, vs: seq<Value>, k: nat)
    requires FieldsFit(fs, vs) && k < |fs|
    ensures |vs| == |fs| && FieldsFit(fs[..k], vs[..k]) && Fits(fs[k], vs[k]) && FieldsFit(fs[k + 1..], vs[k + 1..])
    decreases k
  {
    if k > 0 {
      FieldsFitHere(fs[1..], vs[1..], k - 1);
      assert fs[..k] == [fs[0]] + fs[1..][..k - 1] && fs[1..][k..] == fs[k + 1..];
      assert vs[..k] == [vs[0]] + vs[1..][..k - 1] && vs[1..][k..] == vs[k + 1..];
      FieldsCons(fs[0], fs[1..][..k - 1], vs[0], vs[1..][..k - 1], EncodeFields(fs[1..][..k - 1], vs[1..][..k - 1]));
    }
  }

  /** The first k members of a structure take off bytes. */
  ghost predicate Reach(fs: seq<Shape>, vs: seq<Value>, k: nat, off: nat) {
    && FieldsFit(fs, vs) && k <= |fs| && |vs| == |fs|
    && FieldsFit(fs[..k], vs[..k]) && |EncodeFields(fs[..k], vs[..k])| == off
  }

  lemma ReachStart(fs: seq<Shape>, vs: seq<Value>)
    requires FieldsFit(fs, vs)
    ensures Reach(fs, vs, 0, 0)
  {
  }

  lemma PlacedBehind(front: seq<Byte>, sh: Shape, x: Value, back: seq<Byte>)
    requires Fits(sh, x)
    ensures PlacedAt(front + (Encode(sh, x) + back), |front|, sh, x)
  {
    Middle(front, Encode(sh, x), back);
  }

  /** A structure's bytes are those of the members before one, of that one, and of those after it. */
  lemma FieldsAround(fs: seq<Shape>, vs: seq<Value>, k: nat) returns (front: seq<Byte>, back: seq<Byte>)
    requires FieldsFit(fs, vs) && k < |fs|
    ensures |vs| == |fs| && Codes(fs[..k], vs[..k], front) && Codes(fs[k + 1..], vs[k + 1..], back) && Fits(fs[k], vs[k])
    ensures EncodeFields(fs, vs) == front + (Encode(fs[k], vs[k]) + back)
  {
    FieldsFitHere(fs, vs, k);
    front, back := EncodeFields(fs[..k], vs[..k]), EncodeFields(fs[k + 1..], vs[k + 1..]);
    var gs, ws := [fs[k]] + fs[k + 1..], [vs[k]] + vs[k + 1..];
    FieldsCons(fs[k], fs[k + 1..], vs[k], vs[k + 1..], back);
    FieldsAppend(fs[..k], vs[..k], front, gs, ws, Encode(fs[k], vs[k]) + back);
    Around(fs, k);
    Around(vs, k);
  }

  lemma Around<T>(xs: seq<T>, k: nat)
    requires k < |xs|
    ensures xs[..k] + ([xs[k]] + xs[k + 1..]) == xs
  {
  }

  lemma WalkPlace(fs: seq<Shape>, vs: seq<Value>, k: nat, off: nat)
    requires Reach(fs, vs, k, off) && k < |fs|
    ensures PlacedAt(EncodeFields(fs, vs), off, fs[k], vs[k])
  {
    var front, back := FieldsAround(fs, vs, k);
    PlacedBehind(front, fs[k], vs[k], back);
  }

  lemma WalkOn(fs: seq<Shape>, vs: seq<Value>, k: nat, off: nat)
    requires Reach(fs, vs, k, off) && k < |fs|
    ensures Fits(fs[k], vs[k]) && Reach(fs, vs, k + 1, off + |Encode(fs[k], vs[k])|)
  {
    FieldsFitHere(fs, vs, k);
    var front, code := EncodeFields(fs[..k], vs[..k]), Encode(fs[k], vs[k]);
    FieldsCons(fs[k], [], vs[k], [], []);
    assert [fs[k]] + [] == [fs[k]] && [vs[k]] + [] == [vs[k]] && code + [] == code;
    FieldsAppend(fs[..k], vs[..k], front, [fs[k]], [vs[k]], code);
    assert fs[..k + 1] == fs[..k] + [fs[k]] && vs[..k + 1] == vs[..k] + [vs[k]];
  }

  /** The next member stands right behind them. */
  lemma Walk(fs: seq<Shape>, vs: seq<Value>, k: nat, off: nat)
    requires Reach(fs, vs, k, off) && k < |fs|
    ensures PlacedAt(EncodeFields(fs, vs), off, fs[k], vs[k])
    ensures Reach(fs, vs, k + 1, off + |Encode(fs[k], vs[k])|)
  {
    WalkPlace(fs, vs, k, off);
    WalkOn(fs, vs, k, off);
  }

  /** A member without variable-length data has the size of its shape. */
  lemma WalkFixed(fs: seq<Shape>, vs: seq<Value>, k: nat, off: nat, size: nat)
    requires Reach(fs, vs, k, off) && k < |fs| && NoOpaque(fs[k]) && FixedSize(fs[k]) == size
    ensures PlacedAt(EncodeFields(fs, vs), off, fs[k], vs[k])
    ensures Reach(fs, vs, k + 1, off + size)
  {
    Walk(fs, vs, k, off);
    FixedLength(fs[k], vs[k]);
  }

  /** The elements encode to b. */
  ghost predicate AllCode(e: Shape, vs: seq<Value>, b: seq<Byte>) {
    AllFit(e, vs) && EncodeAll(e, vs) == b
  }

  lemma ElemsCons(e: Shape, x: Value, vs: seq<Value>, b: seq<Byte>)
    requires Fits(e, x) && AllCode(e, vs, b)
    ensures AllCode(e, [x] + vs, Encode(e, x) + b)
  {
    assert ([x] + vs)[1..] == vs;
  }

  lemma ElemsFirst(e: Shape, vs: seq<Value>, b: seq<Byte>) returns (code: seq<Byte>, rest: seq<Byte>)
    requires AllCode(e, vs, b) && vs != []
    ensures Fits(e, vs[0]) && code == Encode(e, vs[0]) && AllCode(e, vs[1..], rest) && b == code + rest
  {
    code, rest := Encode(e, vs[0]), EncodeAll(e, vs[1..]);
  }

  lemma {:induction false} ElemsAppend(e: Shape, vs: seq<Value>, b: seq<Byte>, ws: seq<Value>, d: seq<Byte>)
    requires AllCode(e, vs, b) && AllCode(e, ws, d)
    ensures AllCode(e, vs + ws, b + d)
    decreases |vs|
  {
    if vs == [] {
      assert vs + ws == ws && b + d == d;
    } else {
      var code, rest := ElemsFirst(e, vs, b);
      ElemsAppend(e, vs[1..], rest, ws, d);
      ElemsCons(e, vs[0], vs[1..] + ws, rest + d);
      assert vs + ws == [vs[0]] + (vs[1..] + ws);
      Assoc(code, rest, d);
    }
  }

  lemma {:induction false} ElemsFit(e: Shape, vs: seq<Value>, i: nat)
    requires AllFit(e, vs) && i < |vs|
    ensures AllFit(e, vs[..i]) && Fits(e, vs[i]) && AllFit(e, vs[i + 1..])
    decreases i
  {
    if i > 0 {
      ElemsFit(e, vs[1..], i - 1);
      assert vs[..i] == [vs[0]] + vs[1..][..i - 1] && vs[1..][i..] == vs[i + 1..];
      ElemsCons(e, vs[0], vs[1..][..i - 1], EncodeAll(e, vs[1..][..i - 1]));
    }
  }

  lemma ElementBehind(e: Shape, vs: seq<Value>, i: nat)
    requires AllFit(e, vs) && i < |vs| && AllFit(e, vs[..i])
    ensures PlacedAt(EncodeAll(e, vs), |EncodeAll(e, vs[..i])|, e, vs[i])
  {
    ElemsFit(e, vs, i);
    var front, code, back := EncodeAll(e, vs[..i]), Encode(e, vs[i]), EncodeAll(e, vs[i + 1..]);
    ElemsCons(e, vs[i], vs[i + 1..], back);
    ElemsAppend(e, vs[..i], front, [vs[i]] + vs[i + 1..], code + back);
    Around(vs, i);
    PlacedBehind(front, e, vs[i], back);
  }

  /** Element i of an array stands behind i elements. */
  lemma ElementPlace(k: nat, e: Shape, v: Value, i: nat)
    requires Fits(Vector(k, e), v) && NoOpaque(e) && i < k
    ensures PlacedAt(Encode(Vector(k, e), v), i * FixedSize(e), e, v.items[i])
  {
    ElemsFit(e, v.items, i);
    ElementBehind(e, v.items, i);
    AllSize(e, v.items[..i]);
    NoOpaqueAll(e, v.items[..i]);
  }

  // ----- the thread context

  lemma SigsetPlaces(v: Value)
    requires Fits(SIGSET, v)
    ensures |v.items| == 1 && PlacedAt(Encode(SIGSET, v), 0, Vector(16, UHyper), v.items[0])
  {
    ReachStart(SIGSET.fields, v.items);
    Walk(SIGSET.fields, v.items, 0, 0);
  }

  lemma FpxRegPlaces(v: Value)
    requires Fits(FPXREG, v)
    ensures |v.items| == 3
    ensures PlacedAt(Encode(FPXREG, v), 0, Vector(4, UShort), v.items[0])
    ensures PlacedAt(Encode(FPXREG, v), 16, UShort, v.items[1])
    ensures PlacedAt(Encode(FPXREG, v), 20, Vector(3, UShort), v.items[2])
  {
    var fs, vs := FPXREG.fields, v.items;
    ReachStart(fs, vs);
    WalkFixed(fs, vs, 0, 0, 16);
    WalkFixed(fs, vs, 1, 16, 4);
    Walk(fs, vs, 2, 20);
  }

  lemma XmmRegPlaces(v: Value)
    requires Fits(XMMREG, v)
    ensures |v.items| == 1 && PlacedAt(Encode(XMMREG, v), 0, Vector(4, UInt), v.items[0])
  {
    ReachStart(XMMREG.fields, v.items);
    Walk(XMMREG.fields, v.items, 0, 0);
  }

  lemma FpControlPlaces(v: Value)
    requires Fits(FPSTATE, v)
    ensures |v.items| == 11
    ensures PlacedAt(Encode(FPSTATE, v), 0, UShort, v.items[0]) && PlacedAt(Encode(FPSTATE, v), 4, UShort, v.items[1])
    ensures PlacedAt(Encode(FPSTATE, v), 8, UShort, v.items[2]) && PlacedAt(Encode(FPSTATE, v), 12, UShort, v.items[3])
    ensures Reach(FPSTATE.fields, v.items, 4, 16)
  {
    var fs, vs := FPSTATE.fields, v.items;
    ReachStart(fs, vs);
    WalkFixed(fs, vs, 0, 0, 4);
    WalkFixed(fs, vs, 1, 4, 4);
    WalkFixed(fs, vs, 2, 8, 4);
    WalkFixed(fs, vs, 3, 12, 4);
  }

  lemma FpPointerPlaces(v: Value)
    requires Fits(FPSTATE, v) && Reach(FPSTATE.fields, v.items, 4, 16)
    ensures PlacedAt(Encode(FPSTATE, v), 16, UHyper, v.items[4]) && PlacedAt(Encode(FPSTATE, v), 24, UHyper, v.items[5])
    ensures PlacedAt(Encode(FPSTATE, v), 32, UInt, v.items[6]) && PlacedAt(Encode(FPSTATE, v), 36, UInt, v.items[7])
    ensures Reach(FPSTATE.fields, v.items, 8, 40)
  {
    var fs, vs := FPSTATE.fields, v.items;
    WalkFixed(fs, vs, 4, 16, 8);
    WalkFixed(fs, vs, 5, 24, 8);
    WalkFixed(fs, vs, 6, 32, 4);
    WalkFixed(fs, vs, 7, 36, 4);
  }

  lemma FpRegisterPlaces(v: Value)
    requires Fits(FPSTATE, v) && Reach(FPSTATE.fields, v.items, 8, 40)
    ensures PlacedAt(Encode(FPSTATE, v), 40, Vector(8, FPXREG), v.items[8])
    ensures Reach(FPSTATE.fields, v.items, 9, 296)
  {
    FpxRegSize();
    WalkFixed(FPSTATE.fields, v.items, 8, 40, 256);
  }

  lemma FpVectorPlaces(v: Value)
    requires Fits(FPSTATE, v) && Reach(FPSTATE.fields, v.items, 9, 296)
    ensures PlacedAt(Encode(FPSTATE, v), 296, Vector(16, XMMREG), v.items[9])
    ensures PlacedAt(Encode(FPSTATE, v), 552, Vector(24, UInt), v.items[10])
  {
    XmmRegSize();
    WalkFixed(FPSTATE.fields, v.items, 9, 296, 256);
    Walk(FPSTATE.fields, v.items, 10, 552);
  }

  /** The eleven members of a floating-point state at their offsets. */
  lemma FpStatePlaces(v: Value)
    requires Fits(FPSTATE, v)
    ensures var b := Encode(FPSTATE, v);
      && |v.items| == 11
      && PlacedAt(b, 0, UShort, v.items[0]) && PlacedAt(b, 4, UShort, v.items[1])
      && PlacedAt(b, 8, UShort, v.items[2]) && PlacedAt(b, 12, UShort, v.items[3])
      && PlacedAt(b, 16, UHyper, v.items[4]) && PlacedAt(b, 24, UHyper, v.items[5])
      && PlacedAt(b, 32, UInt, v.items[6]) && PlacedAt(b, 36, UInt, v.items[7])
      && PlacedAt(b, 40, Vector(8, FPXREG), v.items[8]) && PlacedAt(b, 296, Vector(16, XMMREG), v.items[9])
      && PlacedAt(b, 552, Vector(24, UInt), v.items[10])
  {
    FpControlPlaces(v);
    FpPointerPlaces(v);
    FpRegisterPlaces(v);
    FpVectorPlaces(v);
  }

  lemma McontextPlaces(v: Value)
    requires Fits(MCONTEXT, v)
    ensures |v.items| == 3
    ensures PlacedAt(Encode(MCONTEXT, v), 0, Vector(23, UHyper), v.items[0])
    ensures PlacedAt(Encode(MCONTEXT, v), 184, FPSTATE, v.items[1])
    ensures PlacedAt(Encode(MCONTEXT, v), 832, Vector(8, UHyper), v.items[2])
  {
    var fs, vs := MCONTEXT.fields, v.items;
    FpStateSize();
    ReachStart(fs, vs);
    WalkFixed(fs, vs, 0, 0, 184);
    WalkFixed(fs, vs, 1, 184, 648);
    Walk(fs, vs, 2, 832);
  }

  lemma StackPlaces(v: Value)
    requires Fits(STACK, v)
    ensures |v.items| == 2 && v.items[1].Raw?
    ensures PlacedAt(Encode(STACK, v), 0, Int, v.items[0])
    ensures PlacedAt(Encode(STACK, v), 4, Opaque, v.items[1])
    ensures |Encode(STACK, v)| == 8 + (|v.items[1].bytes| + 3) / 4 * 4
  {
    var fs, vs := STACK.fields, v.items;
    ReachStart(fs, vs);
    WalkFixed(fs, vs, 0, 0, 4);
    Walk(fs, vs, 1, 4);
    EncodedSize(STACK, v);
    StackSize();
    StackOpaque(v);
    RoundUp(|vs[1].bytes|);
  }

  /** The five members of a context at their offsets: those after the stack move with its padded length. */
  lemma ContextPlaces(v: Value)
    requires Fits(UCONTEXT, v)
    ensures |v.items| == 5 && v.items[1].Items? && |v.items[1].items| == 2 && v.items[1].items[1].Raw?
    ensures var b, stack := Encode(UCONTEXT, v), (|v.items[1].items[1].bytes| + 3) / 4 * 4;
      && PlacedAt(b, 0, UHyper, v.items[0])
      && PlacedAt(b, 8, STACK, v.items[1])
      && PlacedAt(b, 16 + stack, MCONTEXT, v.items[2])
      && PlacedAt(b, 912 + stack, SIGSET, v.items[3])
      && PlacedAt(b, 1040 + stack, FPSTATE, v.items[4])
      && |b| == 1688 + stack
  {
    var fs, vs := UCONTEXT.fields, v.items;
    ReachStart(fs, vs);
    WalkFixed(fs, vs, 0, 0, 8);
    Walk(fs, vs, 1, 8);
    StackPlaces(vs[1]);
    var stack := (|vs[1].items[1].bytes| + 3) / 4 * 4;
    ContextRestPlaces(v, stack);
  }

  lemma ContextRestPlaces(v: Value, stack: nat)
    requires Fits(UCONTEXT, v) && Reach(UCONTEXT.fields, v.items, 2, 16 + stack)
    ensures PlacedAt(Encode(UCONTEXT, v), 16 + stack, MCONTEXT, v.items[2])
    ensures PlacedAt(Encode(UCONTEXT, v), 912 + stack, SIGSET, v.items[3])
    ensures PlacedAt(Encode(UCONTEXT, v), 1040 + stack, FPSTATE, v.items[4])
    ensures |Encode(UCONTEXT, v)| == 1688 + stack
  {
    var fs, vs := UCONTEXT.fields, v.items;
    McontextSize();
    SigsetSize();
    FpStateSize();
    WalkFixed(fs, vs, 2, 16 + stack, 896);
    WalkFixed(fs, vs, 3, 912 + stack, 128);
    WalkFixed(fs, vs, 4, 1040 + stack, 648);
    assert fs[..5] == fs && vs[..5] == vs;
  }

  lemma UnfoldEncoded(fs: seq<Shape>, vs: seq<Value>, k: nat)
    requires FieldsFit(fs, vs) && k < |fs|
    ensures |vs| == |fs| && FieldsFit(fs[k..], vs[k..]) && Fits(fs[k], vs[k]) && FieldsFit(fs[k + 1..], vs[k + 1..])
    ensures EncodeFields(fs[k..], vs[k..]) == Encode(fs[k], vs[k]) + EncodeFields(fs[k + 1..], vs[k + 1..])
    ensures k + 1 == |fs| ==> EncodeFields(fs[k + 1..], vs[k + 1..]) == []
  {
    FieldFit(fs, vs, k);
    assert fs[k..][1..] == fs[k + 1..] && vs[k..][1..] == vs[k + 1..];
    assert fs[k..][0] == fs[k] && vs[k..][0] == vs[k];
  }

  /** An x87 register is its significand, its exponent and its padding, in that order. */
  lemma FpxRegConcat(v: Value)
    requires Fits(FPXREG, v)
    ensures |v.items| == 3 && Fits(Vector(4, UShort), v.items[0]) && Fits(UShort, v.items[1]) && Fits(Vector(3, UShort), v.items[2])
    ensures Encode(FPXREG, v) ==
      Encode(Vector(4, UShort), v.items[0]) + (Encode(UShort, v.items[1]) + Encode(Vector(3, UShort), v.items[2]))
  {
    var fs, vs := FPXREG.fields, v.items;
    UnfoldEncoded(fs, vs, 0);
    UnfoldEncoded(fs, vs, 1);
    UnfoldEncoded(fs, vs, 2);
    assert fs[0..] == fs && vs[0..] == vs;
    assert Encode(Vector(3, UShort), vs[2]) + [] == Encode(Vector(3, UShort), vs[2]);
  }

  /** A context is its flags, stack, machine context, signal mask and saved floating-point state, in that order. */
  lemma ContextConcat(v: Value)
    requires Fits(UCONTEXT, v)
    ensures |v.items| == 5 && Fits(UHyper, v.items[0]) && Fits(STACK, v.items[1]) && Fits(MCONTEXT, v.items[2])
    ensures Fits(SIGSET, v.items[3]) && Fits(FPSTATE, v.items[4])
    ensures Encode(UCONTEXT, v) ==
      Encode(UHyper, v.items[0]) + (Encode(STACK, v.items[1]) + (Encode(MCONTEXT, v.items[2]) +
      (Encode(SIGSET, v.items[3]) + Encode(FPSTATE, v.items[4]))))
  {
    var fs, vs := UCONTEXT.fields, v.items;
    UnfoldEncoded(fs, vs, 0);
    UnfoldEncoded(fs, vs, 1);
    UnfoldEncoded(fs, vs, 2);
    ContextEnd(vs);
    assert fs[0..] == fs && vs[0..] == vs;
  }

  lemma ContextEnd(vs: seq<Value>)
    requires FieldsFit(UCONTEXT.fields, vs)
    ensures |vs| == 5 && FieldsFit(UCONTEXT.fields[3..], vs[3..]) && Fits(SIGSET, vs[3]) && Fits(FPSTATE, vs[4])
    ensures EncodeFields(UCONTEXT.fields[3..], vs[3..]) == Encode(SIGSET, vs[3]) + Encode(FPSTATE, vs[4])
  {
    UnfoldEncoded(UCONTEXT.fields, vs, 3);
    UnfoldEncoded(UCONTEXT.fields, vs, 4);
    assert Encode(FPSTATE, vs[4]) + [] == Encode(FPSTATE, vs[4]);
  }

  // ----- the lock request

  lemma RequestPlaces(v: Value)
    requires Fits(REQUESTPACK, v)
    ensures |v.items| == 3
    ensures PlacedAt(Encode(REQUESTPACK, v), 0, Int, v.items[0])
    ensures PlacedAt(Encode(REQUESTPACK, v), 4, Int, v.items[1])
    ensures PlacedAt(Encode(REQUESTPACK, v), 8, UHyper, v.items[2])
  {
    var fs, vs := REQUESTPACK.fields, v.items;
    ReachStart(fs, vs);
    WalkFixed(fs, vs, 0, 0, 4);
    WalkFixed(fs, vs, 1, 4, 4);
    Walk(fs, vs, 2, 8);
  }

  /** A request on the wire: the lock number, the sequence number, the high and the low half of the address. */
  lemma WireLayout(p: Pack)
    requires PackFits(p)
    ensures |Wire(p)| == 16
    ensures Wire(p)[..4] == Word(Unsigned(p.lock)) && Wire(p)[4..8] == Word(Unsigned(p.stamp.seqno))
    ensures Wire(p)[8..12] == Word(p.stamp.mac / TWO32) && Wire(p)[12..] == Word(p.stamp.mac % TWO32)
  {
    PackFitsShape(p);
    var v := PackValue(p);
    RequestSize(v);
    RequestPlaces(v);
    var b := Wire(p);
    assert b[8..16] == Word(p.stamp.mac / TWO32) + Word(p.stamp.mac % TWO32);
    assert b[8..16][..4] == b[8..12] && b[8..16][4..] == b[12..];
  }

  /** The codec routine, given the members in the order of the interface file, leaves the wire form in the stream. */
  method EncodeRequest(lock: int, seqno: int, mac: nat) returns (b: seq<Byte>)
    requires PackFits(Pack(lock, Stamp(seqno, mac)))
    ensures b == Wire(Pack(lock, Stamp(seqno, mac)))
  {
    ghost var p := Pack(lock, Stamp(seqno, mac));
    PackFitsShape(p);
    RequestSize(PackValue(p));
    var writer := new XdrStream.Encoder(16);
    var ok, r := writer.RequestPack(Items([Num(lock), Num(seqno), Num(mac)]));
    b := writer.out;
  }

  /** And reading it back gives the members in that order. */
  method DecodeRequest(b: seq<Byte>, ghost p: Pack) returns (ok: bool, lock: int, seqno: int, mac: int)
    requires PackFits(p) && b == Wire(p)
    ensures ok && lock == p.lock && seqno == p.stamp.seqno && mac == p.stamp.mac
  {
    PackFitsShape(p);
    RoundTrip(REQUESTPACK, PackValue(p), []);
    assert b + [] == b;
    var reader := new XdrStream.Decoder(b);
    var r;
    ok, r := reader.RequestPack(Num(0));
    lock, seqno, mac := r.items[0].n, r.items[1].n, r.items[2].n;
  }
}
