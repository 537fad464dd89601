/**
 What one codec routine may do to its stream, and how the effects of the
 routines for the members of a structure or an array add up.
 */
module Tapes {
  import opened Xdr

  datatype Op = Encoding | Decoding | Freeing

  /** A snapshot of a stream: bytes written, room left to write, bytes unread. */
  datatype Tape = Tape(op: Op, out: seq<Byte>, room: nat, input: seq<Byte>)

  /**
   The effect of coding one object: encoding appends its encoding, and fails
   exactly when there is no room for it; decoding consumes and returns what
   the bytes say, and fails exactly when they do not hold a whole object;
   freeing leaves the stream alone and gives up variable-length data.
   */
  ghost predicate Did(sh: Shape, v: Value, t0: Tape, t1: Tape, ok: bool, r: Value) {
    && t1.op == t0.op
    && match t0.op
       case Encoding =>
         && Fits(sh, v)
         && t1.input == t0.input
         && t0.out <= t1.out
         && (ok <==> |Encode(sh, v)| <= t0.room)
         && (ok ==> r == v && t1.out == t0.out + Encode(sh, v) && t1.room == t0.room - |Encode(sh, v)|)
       case Decoding =>
         && t1.out == t0.out && t1.room == t0.room
         && (match Decode(sh, t0.input)
             case Fail => !ok
             case Ok(val, rest) => ok && r == val && t1.input == rest)
       case Freeing =>
         Fits(sh, v) && t1 == t0 && ok && r == Dropped(sh, v)
  }

  /** The object of the k-th member; decoding overwrites whatever is there. */
  function Slot(v: Value, k: nat): Value {
    if v.Items? && k < |v.items| then v.items[k] else Num(0)
  }

  ghost function Prepend(rs: seq<Value>, p: Parsed<seq<Value>>): Parsed<seq<Value>> {
    match p case Fail => Fail case Ok(vs, rest) => Ok(rs + vs, rest)
  }

  /** Members before some point are done with values rs; `todo` and `rest` are the codes of the others. */
  ghost predicate Partly(t0: Tape, t: Tape, rs: seq<Value>, all: seq<Byte>, todo: seq<Byte>,
                         whole: Parsed<seq<Value>>, rest: Parsed<seq<Value>>)
  {
    && t.op == t0.op
    && match t0.op
       case Encoding =>
         && t.input == t0.input && t0.out <= t.out
         && all == t.out[|t0.out|..] + todo
         && t.room + |t.out| == t0.room + |t0.out|
       case Decoding =>
         t.out == t0.out && t.room == t0.room && whole == Prepend(rs, rest)
       case Freeing =>
         t == t0
  }

  /** What is written next comes off the front of what is still to be written. */
  lemma Written(base: seq<Byte>, out: seq<Byte>, code: seq<Byte>, todo: seq<Byte>)
    requires base <= out
    ensures base <= out + code && out[|base|..] + (code + todo) == (out + code)[|base|..] + todo
  {
    assert (out + code)[|base|..] == out[|base|..] + code;
  }

  // ----- structures

  /** The first k fields of a structure are done. */
  ghost predicate FieldsDone(fs: seq<Shape>, v: Value, k: nat, t0: Tape, t: Tape, rs: seq<Value>) {
    && k <= |fs| && |rs| == k && t.op == t0.op
    && (t0.op != Decoding ==> v.Items? && FieldsFit(fs, v.items) && FieldsFit(fs[k..], v.items[k..]))
    && match t0.op
       case Encoding =>
         && rs == v.items[..k]
         && Partly(t0, t, rs, EncodeFields(fs, v.items), EncodeFields(fs[k..], v.items[k..]), Fail, Fail)
       case Decoding =>
         Partly(t0, t, rs, [], [], DecodeFields(fs, t0.input), DecodeFields(fs[k..], t.input))
       case Freeing =>
         t == t0 && DroppedFields(fs, v.items) == rs + DroppedFields(fs[k..], v.items[k..])
  }

  lemma FieldsStart(fs: seq<Shape>, v: Value, t: Tape)
    requires t.op != Decoding ==> Fits(Record(fs), v)
    ensures FieldsDone(fs, v, 0, t, t, [])
    ensures t.op != Decoding && fs != [] ==> Fits(fs[0], Slot(v, 0))
  {
    assert fs[0..] == fs;
    if t.op != Decoding {
      assert v.items[0..] == v.items;
      assert t.op == Freeing ==> [] + DroppedFields(fs, v.items) == DroppedFields(fs, v.items);
    } else {
      var p := DecodeFields(fs, t.input);
      assert p.Ok? ==> [] + p.value == p.value;
    }
  }

  /** The next field's object is one its shape can hold. */
  lemma FieldFits(fs: seq<Shape>, v: Value, k: nat, t0: Tape, t: Tape, rs: seq<Value>)
    requires FieldsDone(fs, v, k, t0, t, rs)
    ensures t0.op != Decoding && k < |fs| ==> Fits(fs[k], Slot(v, k))
  {
    if t0.op != Decoding && k < |fs| {
      assert fs[k..][0] == fs[k] && v.items[k..][0] == v.items[k];
    }
  }

  lemma FieldsNextEncoded(fs: seq<Shape>, v: Value, k: nat, t0: Tape, t: Tape, rs: seq<Value>, t1: Tape, r: Value)
    requires FieldsDone(fs, v, k, t0, t, rs) && k < |fs| && t0.op == Encoding
    requires Did(fs[k], Slot(v, k), t, t1, true, r)
    ensures FieldsDone(fs, v, k + 1, t0, t1, rs + [r])
  {
    assert fs[k..][1..] == fs[k + 1..] && fs[k..][0] == fs[k];
    assert v.items[k..][1..] == v.items[k + 1..] && v.items[k..][0] == v.items[k];
    assert rs + [r] == v.items[..k + 1];
    Written(t0.out, t.out, Encode(fs[k], v.items[k]), EncodeFields(fs[k + 1..], v.items[k + 1..]));
  }

  lemma FieldsNext(fs: seq<Shape>, v: Value, k: nat, t0: Tape, t: Tape, rs: seq<Value>, t1: Tape, r: Value)
    requires FieldsDone(fs, v, k, t0, t, rs) && k < |fs|
    requires Did(fs[k], Slot(v, k), t, t1, true, r)
    ensures FieldsDone(fs, v, k + 1, t0, t1, rs + [r])
  {
    if t0.op == Encoding {
      FieldsNextEncoded(fs, v, k, t0, t, rs, t1, r);
    } else {
      assert fs[k..][1..] == fs[k + 1..] && fs[k..][0] == fs[k];
      if t0.op == Decoding {
        var p := DecodeFields(fs[k + 1..], t1.input);
        assert p.Ok? ==> rs + ([r] + p.value) == rs + [r] + p.value;
      } else {
        assert v.items[k..][1..] == v.items[k + 1..] && v.items[k..][0] == v.items[k];
        var rest := DroppedFields(fs[k + 1..], v.items[k + 1..]);
        assert rs + ([r] + rest) == rs + [r] + rest;
      }
    }
  }

  lemma FieldsStop(fs: seq<Shape>, v: Value, k: nat, t0: Tape, t: Tape, rs: seq<Value>, t1: Tape, r: Value, r': Value)
    requires FieldsDone(fs, v, k, t0, t, rs) && k < |fs|
    requires Did(fs[k], Slot(v, k), t, t1, false, r)
    ensures Did(Record(fs), v, t0, t1, false, r')
  {
    assert fs[k..][0] == fs[k];
    if t0.op == Encoding {
      assert v.items[k..][0] == v.items[k];
    }
  }

  /** One member coded: the structure is a member further, or has failed. */
  lemma FieldsStep(fs: seq<Shape>, v: Value, k: nat, t0: Tape, t: Tape, rs: seq<Value>, t1: Tape, ok: bool, r: Value, r': Value)
    requires FieldsDone(fs, v, k, t0, t, rs) && k < |fs|
    requires Did(fs[k], Slot(v, k), t, t1, ok, r)
    ensures ok ==> FieldsDone(fs, v, k + 1, t0, t1, rs + [r])
    ensures ok && t0.op != Decoding && k + 1 < |fs| ==> Fits(fs[k + 1], Slot(v, k + 1))
    ensures !ok ==> Did(Record(fs), v, t0, t1, false, r')
  {
    if ok {
      FieldsNext(fs, v, k, t0, t, rs, t1, r);
      FieldFits(fs, v, k + 1, t0, t1, rs + [r]);
    } else {
      FieldsStop(fs, v, k, t0, t, rs, t1, r, r');
    }
  }

  lemma FieldsEnd(fs: seq<Shape>, v: Value, t0: Tape, t: Tape, rs: seq<Value>)
    requires FieldsDone(fs, v, |fs|, t0, t, rs)
    ensures Did(Record(fs), v, t0, t, true, Items(rs))
  {
    assert fs[|fs|..] == [];
    if t0.op == Encoding {
      assert rs == v.items;
      assert EncodeFields(fs, v.items) == t.out[|t0.out|..];
    } else {
      assert rs + [] == rs;
    }
  }

  // ----- fixed-length arrays

  /** The first i elements of an array of n are done. */
  ghost predicate ElemsDone(e: Shape, n: nat, v: Value, i: nat, t0: Tape, t: Tape, rs: seq<Value>) {
    && i <= n && |rs| == i && t.op == t0.op
    && (t0.op != Decoding ==> v.Items? && |v.items| == n && AllFit(e, v.items) && AllFit(e, v.items[i..]))
    && match t0.op
       case Encoding =>
         && rs == v.items[..i]
         && Partly(t0, t, rs, EncodeAll(e, v.items), EncodeAll(e, v.items[i..]), Fail, Fail)
       case Decoding =>
         Partly(t0, t, rs, [], [], DecodeAll(e, n, t0.input), DecodeAll(e, n - i, t.input))
       case Freeing =>
         t == t0 && DroppedAll(e, v.items) == rs + DroppedAll(e, v.items[i..])
  }

  lemma ElemsStart(e: Shape, n: nat, v: Value, t: Tape)
    requires t.op != Decoding ==> Fits(Vector(n, e), v)
    ensures ElemsDone(e, n, v, 0, t, t, [])
    ensures t.op != Decoding && 0 < n ==> Fits(e, Slot(v, 0))
  {
    if t.op != Decoding {
      assert v.items[0..] == v.items;
      assert t.op == Freeing ==> [] + DroppedAll(e, v.items) == DroppedAll(e, v.items);
    } else {
      var p := DecodeAll(e, n, t.input);
      assert p.Ok? ==> [] + p.value == p.value;
    }
  }

  lemma ElemFits(e: Shape, n: nat, v: Value, i: nat, t0: Tape, t: Tape, rs: seq<Value>)
    requires ElemsDone(e, n, v, i, t0, t, rs)
    ensures t0.op != Decoding && i < n ==> Fits(e, Slot(v, i))
  {
    if t0.op != Decoding && i < n {
      assert v.items[i..][0] == v.items[i];
    }
  }

  lemma ElemsNextEncoded(e: Shape, n: nat, v: Value, i: nat, t0: Tape, t: Tape, rs: seq<Value>, t1: Tape, r: Value)
    requires ElemsDone(e, n, v, i, t0, t, rs) && i < n && t0.op == Encoding
    requires Did(e, Slot(v, i), t, t1, true, r)
    ensures ElemsDone(e, n, v, i + 1, t0, t1, rs + [r])
  {
    assert v.items[i..][1..] == v.items[i + 1..] && v.items[i..][0] == v.items[i];
    assert rs + [r] == v.items[..i + 1];
    Written(t0.out, t.out, Encode(e, v.items[i]), EncodeAll(e, v.items[i + 1..]));
  }

  lemma ElemsNext(e: Shape, n: nat, v: Value, i: nat, t0: Tape, t: Tape, rs: seq<Value>, t1: Tape, r: Value)
    requires ElemsDone(e, n, v, i, t0, t, rs) && i < n
    requires Did(e, Slot(v, i), t, t1, true, r)
    ensures ElemsDone(e, n, v, i + 1, t0, t1, rs + [r])
  {
    if t0.op == Encoding {
      ElemsNextEncoded(e, n, v, i, t0, t, rs, t1, r);
    } else if t0.op == Decoding {
      var p := DecodeAll(e, n - i - 1, t1.input);
      assert p.Ok? ==> rs + ([r] + p.value) == rs + [r] + p.value;
    } else {
      assert v.items[i..][1..] == v.items[i + 1..] && v.items[i..][0] == v.items[i];
      var rest := DroppedAll(e, v.items[i + 1..]);
      assert rs + ([r] + rest) == rs + [r] + rest;
    }
  }

  lemma ElemsStop(e: Shape, n: nat, v: Value, i: nat, t0: Tape, t: Tape, rs: seq<Value>, t1: Tape, r: Value, r': Value)
    requires ElemsDone(e, n, v, i, t0, t, rs) && i < n
    requires Did(e, Slot(v, i), t, t1, false, r)
    ensures Did(Vector(n, e), v, t0, t1, false, r')
  {
    if t0.op == Encoding {
      assert v.items[i..][0] == v.items[i];
    }
  }

  /** One element coded: the array is an element further, or has failed. */
  lemma ElemsStep(e: Shape, n: nat, v: Value, i: nat, t0: Tape, t: Tape, rs: seq<Value>, t1: Tape, ok: bool, r: Value, r': Value)
    requires ElemsDone(e, n, v, i, t0, t, rs) && i < n
    requires Did(e, Slot(v, i), t, t1, ok, r)
    ensures ok ==> ElemsDone(e, n, v, i + 1, t0, t1, rs + [r])
    ensures !ok ==> Did(Vector(n, e), v, t0, t1, false, r')
  {
    if ok {
      ElemsNext(e, n, v, i, t0, t, rs, t1, r);
    } else {
      ElemsStop(e, n, v, i, t0, t, rs, t1, r, r');
    }
  }

  lemma ElemsEnd(e: Shape, n: nat, v: Value, t0: Tape, t: Tape, rs: seq<Value>)
    requires ElemsDone(e, n, v, n, t0, t, rs)
    ensures Did(Vector(n, e), v, t0, t, true, Items(rs))
  {
    if t0.op == Encoding {
      assert rs == v.items;
      assert EncodeAll(e, v.items) == t.out[|t0.out|..];
    } else {
      assert rs + [] == rs;
    }
  }
}
