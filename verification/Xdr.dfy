/**
 The external data representation of RFC 4506, for the shapes the repository's
 interface files use: unsigned int (section 4.2), int (section 4.1), unsigned
 hyper (section 4.5), variable-length opaque data (section 4.10), fixed-length
 arrays (section 4.12) and structures (section 4.14). A 16-bit unsigned short
 travels as one unsigned int, as the RPC library carries it.
 */
module Xdr {

  type Byte = b: int | 0 <= b < 256

  const TWO16: int := 0x1_0000
  const TWO31: int := 0x8000_0000
  const TWO32: int := 0x1_0000_0000
  const TWO64: int := 0x1_0000_0000_0000_0000

  datatype Shape =
    | UShort
    | UInt
    | Int
    | UHyper
    | Opaque
    | Vector(count: nat, elem: Shape)
    | Record(fields: seq<Shape>)

  datatype Value =
    | Num(n: int)
    | Raw(bytes: seq<Byte>)
    | Items(items: seq<Value>)

  datatype Parsed<+T> = Fail | Ok(value: T, rest: seq<Byte>)

  /** The value is one the shape can hold. */
  ghost predicate Fits(sh: Shape, v: Value)
    decreases sh, 1
  {
    match sh
    case UShort => v.Num? && 0 <= v.n < TWO16
    case UInt => v.Num? && 0 <= v.n < TWO32
    case Int => v.Num? && -TWO31 <= v.n < TWO31
    case UHyper => v.Num? && 0 <= v.n < TWO64
    case Opaque => v.Raw? && |v.bytes| < TWO32
    case Vector(k, e) => v.Items? && |v.items| == k && AllFit(e, v.items)
    case Record(fs) => v.Items? && FieldsFit(fs, v.items)
  }

  ghost predicate AllFit(e: Shape, vs: seq<Value>)
    decreases e, 2, |vs|
  {
    vs == [] || (Fits(e, vs[0]) && AllFit(e, vs[1..]))
  }

  ghost predicate FieldsFit(fs: seq<Shape>, vs: seq<Value>)
    decreases fs, 0
  {
    |fs| == |vs| && (fs == [] || (Fits(fs[0], vs[0]) && FieldsFit(fs[1..], vs[1..])))
  }

  // ----- units

  /** One 4-byte unit, most significant byte first. */
  function Word(n: int): (w: seq<Byte>)
    requires 0 <= n < TWO32
    ensures |w| == 4
  {
    [n / 0x100_0000, n / 0x1_0000 % 256, n / 256 % 256, n % 256]
  }

  function FromWord(w: seq<Byte>): (n: int)
    requires |w| == 4
    ensures 0 <= n < TWO32
  {
    var a: int, b: int, c: int, d: int := w[0], w[1], w[2], w[3];
    a * 0x100_0000 + b * 0x1_0000 + c * 256 + d
  }

  lemma WordInverse(n: int)
    requires 0 <= n < TWO32
    ensures FromWord(Word(n)) == n
  {
    var b := n / 256;
    var c := b / 256;
    assert n == 256 * b + n % 256 && b == 256 * c + b % 256 && c == 256 * (c / 256) + c % 256;
    assert c == n / 0x1_0000 && c / 256 == n / 0x100_0000;
  }

  /** Two's complement: the unit that carries a signed int. */
  function Unsigned(n: int): int
    requires -TWO31 <= n < TWO31
  {
    if n < 0 then n + TWO32 else n
  }

  function Signed(n: int): int
    requires 0 <= n < TWO32
  {
    if n >= TWO31 then n - TWO32 else n
  }

  function Pad(n: nat): nat { (4 - n % 4) % 4 }

  function Zeros(n: nat): (z: seq<Byte>)
    ensures |z| == n
  {
    seq(n, _ => 0)
  }

  // ----- encoding

  ghost function Encode(sh: Shape, v: Value): seq<Byte>
    requires Fits(sh, v)
    decreases sh, 1
  {
    match sh
    case UShort => Word(v.n)
    case UInt => Word(v.n)
    case Int => Word(Unsigned(v.n))
    case UHyper => Word(v.n / TWO32) + Word(v.n % TWO32)
    case Opaque => Word(|v.bytes|) + v.bytes + Zeros(Pad(|v.bytes|))
    case Vector(_, e) => EncodeAll(e, v.items)
    case Record(fs) => EncodeFields(fs, v.items)
  }

  ghost function EncodeAll(e: Shape, vs: seq<Value>): seq<Byte>
    requires AllFit(e, vs)
    decreases e, 2, |vs|
  {
    if vs == [] then [] else Encode(e, vs[0]) + EncodeAll(e, vs[1..])
  }

  ghost function EncodeFields(fs: seq<Shape>, vs: seq<Value>): seq<Byte>
    requires FieldsFit(fs, vs)
    decreases fs, 0
  {
    if fs == [] then [] else Encode(fs[0], vs[0]) + EncodeFields(fs[1..], vs[1..])
  }

  // ----- decoding

  ghost function GetWord(b: seq<Byte>): Parsed<int> {
    if |b| < 4 then Fail else Ok(FromWord(b[..4]), b[4..])
  }

  ghost function GetHyper(b: seq<Byte>): Parsed<int> {
    match GetWord(b)
    case Fail => Fail
    case Ok(hi, rest) =>
      match GetWord(rest)
      case Fail => Fail
      case Ok(lo, rest') => Ok(hi * TWO32 + lo, rest')
  }

  ghost function GetOpaque(b: seq<Byte>): Parsed<seq<Byte>> {
    match GetWord(b)
    case Fail => Fail
    case Ok(n, rest) => if |rest| < n + Pad(n) then Fail else Ok(rest[..n], rest[n + Pad(n)..])
  }

  /** Bytes that do not hold a whole value are refused; padding is skipped unread. */
  ghost function Decode(sh: Shape, b: seq<Byte>): Parsed<Value>
    decreases sh, 1
  {
    match sh
    case UShort => (match GetWord(b) case Fail => Fail case Ok(n, rest) => Ok(Num(n % TWO16), rest))
    case UInt => (match GetWord(b) case Fail => Fail case Ok(n, rest) => Ok(Num(n), rest))
    case Int => (match GetWord(b) case Fail => Fail case Ok(n, rest) => Ok(Num(Signed(n)), rest))
    case UHyper => (match GetHyper(b) case Fail => Fail case Ok(n, rest) => Ok(Num(n), rest))
    case Opaque => (match GetOpaque(b) case Fail => Fail case Ok(bs, rest) => Ok(Raw(bs), rest))
    case Vector(k, e) => (match DecodeAll(e, k, b) case Fail => Fail case Ok(vs, rest) => Ok(Items(vs), rest))
    case Record(fs) => (match DecodeFields(fs, b) case Fail => Fail case Ok(vs, rest) => Ok(Items(vs), rest))
  }

  ghost function DecodeAll(e: Shape, k: nat, b: seq<Byte>): Parsed<seq<Value>>
    decreases e, 2, k
  {
    if k == 0 then Ok([], b)
    else
      match Decode(e, b)
      case Fail => Fail
      case Ok(v, rest) => Before(v, DecodeAll(e, k - 1, rest))
  }

  ghost function DecodeFields(fs: seq<Shape>, b: seq<Byte>): Parsed<seq<Value>>
    decreases fs, 0
  {
    if fs == [] then Ok([], b)
    else
      match Decode(fs[0], b)
      case Fail => Fail
      case Ok(v, rest) => Before(v, DecodeFields(fs[1..], rest))
  }

  ghost function Before(v: Value, p: Parsed<seq<Value>>): Parsed<seq<Value>> {
    match p case Fail => Fail case Ok(vs, rest) => Ok([v] + vs, rest)
  }

  // ----- round trip

  lemma WordRoundTrip(n: int, rest: seq<Byte>)
    requires 0 <= n < TWO32
    ensures GetWord(Word(n) + rest) == Ok(n, rest)
  {
    WordInverse(n);
    assert (Word(n) + rest)[..4] == Word(n);
  }

  lemma HyperRoundTrip(n: int, rest: seq<Byte>)
    requires 0 <= n < TWO64
    ensures GetHyper(Word(n / TWO32) + Word(n % TWO32) + rest) == Ok(n, rest)
  {
    var hi, lo := Word(n / TWO32), Word(n % TWO32);
    assert hi + lo + rest == hi + (lo + rest);
    WordRoundTrip(n / TWO32, lo + rest);
    WordRoundTrip(n % TWO32, rest);
  }

  lemma OpaqueRoundTrip(bs: seq<Byte>, rest: seq<Byte>)
    requires |bs| < TWO32
    ensures GetOpaque(Word(|bs|) + bs + Zeros(Pad(|bs|)) + rest) == Ok(bs, rest)
  {
    var n, z := |bs|, Zeros(Pad(|bs|));
    var tail := bs + z + rest;
    assert Word(n) + bs + z + rest == Word(n) + tail;
    WordRoundTrip(n, tail);
    assert tail[..n] == bs && tail[n + Pad(n)..] == rest;
  }

  /** Decoding what was encoded, whatever follows it, gives the value back and leaves what followed. */
  lemma {:induction false} RoundTrip(sh: Shape, v: Value, rest: seq<Byte>)
    requires Fits(sh, v)
    ensures Decode(sh, Encode(sh, v) + rest) == Ok(v, rest)
    decreases sh, 1
  {
    match sh
    case UShort => WordRoundTrip(v.n, rest);
    case UInt => WordRoundTrip(v.n, rest);
    case Int => WordRoundTrip(Unsigned(v.n), rest);
    case UHyper => HyperRoundTrip(v.n, rest);
    case Opaque => OpaqueRoundTrip(v.bytes, rest);
    case Vector(_, e) => AllRoundTrip(e, v.items, rest);
    case Record(fs) => FieldsRoundTrip(fs, v.items, rest);
  }

  lemma {:induction false} AllRoundTrip(e: Shape, vs: seq<Value>, rest: seq<Byte>)
    requires AllFit(e, vs)
    ensures DecodeAll(e, |vs|, EncodeAll(e, vs) + rest) == Ok(vs, rest)
    decreases e, 2, |vs|
  {
    if vs == [] {
      assert EncodeAll(e, vs) + rest == rest;
    } else {
      var tail := EncodeAll(e, vs[1..]);
      assert EncodeAll(e, vs) + rest == Encode(e, vs[0]) + (tail + rest);
      RoundTrip(e, vs[0], tail + rest);
      AllRoundTrip(e, vs[1..], rest);
      assert [vs[0]] + vs[1..] == vs;
    }
  }

  lemma {:induction false} FieldsRoundTrip(fs: seq<Shape>, vs: seq<Value>, rest: seq<Byte>)
    requires FieldsFit(fs, vs)
    ensures DecodeFields(fs, EncodeFields(fs, vs) + rest) == Ok(vs, rest)
    decreases fs, 0
  {
    if fs == [] {
      assert EncodeFields(fs, vs) + rest == rest;
    } else {
      var tail := EncodeFields(fs[1..], vs[1..]);
      assert EncodeFields(fs, vs) + rest == Encode(fs[0], vs[0]) + (tail + rest);
      RoundTrip(fs[0], vs[0], tail + rest);
      FieldsRoundTrip(fs[1..], vs[1..], rest);
      assert [vs[0]] + vs[1..] == vs;
    }
  }

  /** Equal encodings come from equal values. */
  lemma EncodeInjective(sh: Shape, v: Value, w: Value)
    requires Fits(sh, v) && Fits(sh, w) && Encode(sh, v) == Encode(sh, w)
    ensures v == w
  {
    RoundTrip(sh, v, []);
    RoundTrip(sh, w, []);
  }

  // ----- truncated data

  lemma OpaqueTruncated(bs: seq<Byte>, k: nat)
    requires |bs| < TWO32 && k < |Word(|bs|) + bs + Zeros(Pad(|bs|))|
    ensures GetOpaque((Word(|bs|) + bs + Zeros(Pad(|bs|)))[..k]) == Fail
  {
    var b := Word(|bs|) + bs + Zeros(Pad(|bs|));
    if k >= 4 {
      assert b[..k] == Word(|bs|) + b[4..k];
      WordRoundTrip(|bs|, b[4..k]);
    }
  }

  /** An encoding cut short anywhere is refused. */
  lemma {:induction false} TruncatedRefused(sh: Shape, v: Value, k: nat)
    requires Fits(sh, v) && k < |Encode(sh, v)|
    ensures Decode(sh, Encode(sh, v)[..k]) == Fail
    decreases sh, 1
  {
    match sh
    case Opaque => OpaqueTruncated(v.bytes, k);
    case Vector(_, e) => AllTruncated(e, v.items, k);
    case Record(fs) => FieldsTruncated(fs, v.items, k);
    case _ =>
  }

  lemma {:induction false} AllTruncated(e: Shape, vs: seq<Value>, k: nat)
    requires AllFit(e, vs) && k < |EncodeAll(e, vs)|
    ensures DecodeAll(e, |vs|, EncodeAll(e, vs)[..k]) == Fail
    decreases e, 2, |vs|
  {
    var first, tail := Encode(e, vs[0]), EncodeAll(e, vs[1..]);
    if k < |first| {
      assert (first + tail)[..k] == first[..k];
      TruncatedRefused(e, vs[0], k);
    } else {
      assert (first + tail)[..k] == first + tail[..k - |first|];
      RoundTrip(e, vs[0], tail[..k - |first|]);
      AllTruncated(e, vs[1..], k - |first|);
    }
  }

  lemma {:induction false} FieldsTruncated(fs: seq<Shape>, vs: seq<Value>, k: nat)
    requires FieldsFit(fs, vs) && k < |EncodeFields(fs, vs)|
    ensures DecodeFields(fs, EncodeFields(fs, vs)[..k]) == Fail
    decreases fs, 0
  {
    var first, tail := Encode(fs[0], vs[0]), EncodeFields(fs[1..], vs[1..]);
    if k < |first| {
      assert (first + tail)[..k] == first[..k];
      TruncatedRefused(fs[0], vs[0], k);
    } else {
      assert (first + tail)[..k] == first + tail[..k - |first|];
      RoundTrip(fs[0], vs[0], tail[..k - |first|]);
      FieldsTruncated(fs[1..], vs[1..], k - |first|);
    }
  }

  // ----- freeing

  /** What is left of a value whose variable-length data has been freed. */
  ghost function Dropped(sh: Shape, v: Value): Value
    requires Fits(sh, v)
    decreases sh, 1
  {
    match sh
    case Opaque => Raw([])
    case Vector(_, e) => Items(DroppedAll(e, v.items))
    case Record(fs) => Items(DroppedFields(fs, v.items))
    case _ => v
  }

  ghost function DroppedAll(e: Shape, vs: seq<Value>): seq<Value>
    requires AllFit(e, vs)
    decreases e, 2, |vs|
  {
    if vs == [] then [] else [Dropped(e, vs[0])] + DroppedAll(e, vs[1..])
  }

  ghost function DroppedFields(fs: seq<Shape>, vs: seq<Value>): seq<Value>
    requires FieldsFit(fs, vs)
    decreases fs, 0
  {
    if fs == [] then [] else [Dropped(fs[0], vs[0])] + DroppedFields(fs[1..], vs[1..])
  }

  // ----- size

  /** The bytes a shape takes, counting variable-length data as its length unit only. */
  function FixedSize(sh: Shape): nat
    decreases sh, 1
  {
    match sh
    case UHyper => 8
    case Vector(k, e) => k * FixedSize(e)
    case Record(fs) => FixedSizes(fs)
    case _ => 4
  }

  function FixedSizes(fs: seq<Shape>): nat
    decreases fs, 0
  {
    if fs == [] then 0 else FixedSize(fs[0]) + FixedSizes(fs[1..])
  }

  /** The padded lengths of all variable-length data in a value. */
  ghost function OpaqueSize(sh: Shape, v: Value): nat
    requires Fits(sh, v)
    decreases sh, 1
  {
    match sh
    case Opaque => |v.bytes| + Pad(|v.bytes|)
    case Vector(_, e) => OpaqueAll(e, v.items)
    case Record(fs) => OpaqueFields(fs, v.items)
    case _ => 0
  }

  ghost function OpaqueAll(e: Shape, vs: seq<Value>): nat
    requires AllFit(e, vs)
    decreases e, 2, |vs|
  {
    if vs == [] then 0 else OpaqueSize(e, vs[0]) + OpaqueAll(e, vs[1..])
  }

  ghost function OpaqueFields(fs: seq<Shape>, vs: seq<Value>): nat
    requires FieldsFit(fs, vs)
    decreases fs, 0
  {
    if fs == [] then 0 else OpaqueSize(fs[0], vs[0]) + OpaqueFields(fs[1..], vs[1..])
  }

  lemma {:induction false} EncodedSize(sh: Shape, v: Value)
    requires Fits(sh, v)
    ensures |Encode(sh, v)| == FixedSize(sh) + OpaqueSize(sh, v)
    decreases sh, 1
  {
    match sh
    case Vector(_, e) => AllSize(e, v.items);
    case Record(fs) => FieldsSize(fs, v.items);
    case _ =>
  }

  lemma OneMore(k: nat, n: nat)
    ensures (k + 1) * n == n + k * n
  {
  }

  lemma {:induction false} AllSize(e: Shape, vs: seq<Value>)
    requires AllFit(e, vs)
    ensures |EncodeAll(e, vs)| == |vs| * FixedSize(e) + OpaqueAll(e, vs)
    decreases e, 2, |vs|
  {
    if vs != [] {
      EncodedSize(e, vs[0]);
      AllSize(e, vs[1..]);
      OneMore(|vs[1..]|, FixedSize(e));
    }
  }

  lemma {:induction false} FieldsSize(fs: seq<Shape>, vs: seq<Value>)
    requires FieldsFit(fs, vs)
    ensures |EncodeFields(fs, vs)| == FixedSizes(fs) + OpaqueFields(fs, vs)
    decreases fs, 0
  {
    if fs != [] {
      EncodedSize(fs[0], vs[0]);
      FieldsSize(fs[1..], vs[1..]);
    }
  }
}
