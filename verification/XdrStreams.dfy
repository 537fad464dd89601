/**
 The codec routines over one stream. Each routine encodes or decodes
 according to the stream's direction, as the generated C routines do, and does
 to the stream what RFC 4506 says of its shape.
 */
module XdrStreams {
  import opened Xdr
  import opened Shapes
  import opened Tapes

  /** The shapes whose routine is passed to the array routine. */
  ghost function Level(e: Shape): nat {
    if e == FPXREG || e == XMMREG then 1 else 0
  }

  predicate Element(e: Shape) {
    e == UShort || e == UInt || e == UHyper || e == FPXREG || e == XMMREG
  }

  class XdrStream {
    const op: Op
    var out: seq<Byte>
    var room: nat
    var input: seq<Byte>

    constructor Encoder(capacity: nat)
      ensures Now() == Tape(Encoding, [], capacity, [])
    {
      op := Encoding;
      out, room, input := [], capacity, [];
    }

    constructor Decoder(bytes: seq<Byte>)
      ensures Now() == Tape(Decoding, [], 0, bytes)
    {
      op := Decoding;
      out, room, input := [], 0, bytes;
    }

    constructor Releaser()
      ensures Now() == Tape(Freeing, [], 0, [])
    {
      op := Freeing;
      out, room, input := [], 0, [];
    }

    ghost function Now(): Tape
      reads this
    {
      Tape(op, out, room, input)
    }

    // ----- units

    method PutBytes(b: seq<Byte>) returns (ok: bool)
      modifies this
      ensures ok <==> |b| <= old(room)
      ensures Now() == if ok then old(Now()).(out := old(out) + b, room := old(room) - |b|) else old(Now())
    {
      ok := |b| <= room;
      if ok {
        out, room := out + b, room - |b|;
      }
    }

    method GetBytes(n: nat) returns (ok: bool, b: seq<Byte>)
      modifies this
      ensures ok <==> n <= |old(input)|
      ensures ok ==> b == old(input)[..n] && Now() == old(Now()).(input := old(input)[n..])
      ensures !ok ==> Now() == old(Now())
    {
      ok, b := n <= |input|, [];
      if ok {
        b, input := input[..n], input[n..];
      }
    }

    // ----- library routines

    method UIntCode(v: Value) returns (ok: bool, r: Value)
      requires op != Decoding ==> Fits(UInt, v)
      modifies this
      ensures Did(UInt, v, old(Now()), Now(), ok, r)
    {
      ok, r := true, v;
      if op == Encoding {
        ok := PutBytes(Word(v.n));
      } else if op == Decoding {
        var b;
        ok, b := GetBytes(4);
        if ok { r := Num(FromWord(b)); }
      }
    }

    method UShortCode(v: Value) returns (ok: bool, r: Value)
      requires op != Decoding ==> Fits(UShort, v)
      modifies this
      ensures Did(UShort, v, old(Now()), Now(), ok, r)
    {
      ok, r := true, v;
      if op == Encoding {
        ok := PutBytes(Word(v.n));
      } else if op == Decoding {
        var b;
        ok, b := GetBytes(4);
        if ok { r := Num(FromWord(b) % TWO16); }
      }
    }

    method IntCode(v: Value) returns (ok: bool, r: Value)
      requires op != Decoding ==> Fits(Int, v)
      modifies this
      ensures Did(Int, v, old(Now()), Now(), ok, r)
    {
      ok, r := true, v;
      if op == Encoding {
        ok := PutBytes(Word(Unsigned(v.n)));
      } else if op == Decoding {
        var b;
        ok, b := GetBytes(4);
        if ok { r := Num(Signed(FromWord(b))); }
      }
    }

    /** The high unit first, then the low one. */
    method UHyperCode(v: Value) returns (ok: bool, r: Value)
      requires op != Decoding ==> Fits(UHyper, v)
      modifies this
      ensures Did(UHyper, v, old(Now()), Now(), ok, r)
    {
      ok, r := true, v;
      if op == Encoding {
        ok := PutBytes(Word(v.n / TWO32));
        if ok { ok := PutBytes(Word(v.n % TWO32)); }
      } else if op == Decoding {
        var hi, lo;
        ok, hi := GetBytes(4);
        if ok { ok, lo := GetBytes(4); }
        if ok { r := Num(FromWord(hi) * TWO32 + FromWord(lo)); }
      }
    }

    /** The length, the bytes, and zeros up to the next unit. */
    method PutOpaque(bytes: seq<Byte>) returns (ok: bool)
      requires op == Encoding && |bytes| < TWO32
      modifies this
      ensures Did(Opaque, Raw(bytes), old(Now()), Now(), ok, Raw(bytes))
    {
      var n := |bytes|;
      ok := PutBytes(Word(n));
      if ok { ok := PutBytes(bytes); }
      if ok { ok := PutBytes(Zeros(Pad(n))); }
      assert Encode(Opaque, Raw(bytes)) == Word(n) + bytes + Zeros(Pad(n));
    }

    method TakeOpaque() returns (ok: bool, bytes: seq<Byte>)
      requires op == Decoding
      modifies this
      ensures match Xdr.GetOpaque(old(input))
        case Fail => !ok && Now().(input := []) == old(Now()).(input := [])
        case Ok(bs, rest) => ok && bytes == bs && Now() == old(Now()).(input := rest)
    {
      var b, crud;
      bytes := [];
      ok, b := GetBytes(4);
      if ok {
        var n := FromWord(b);
        ok, bytes := GetBytes(n);
        if ok { ok, crud := GetBytes(Pad(n)); }
      }
    }

    /** Variable-length bytes; freeing gives them up. */
    method BytesCode(v: Value) returns (ok: bool, r: Value)
      requires op != Decoding ==> Fits(Opaque, v)
      modifies this
      ensures Did(Opaque, v, old(Now()), Now(), ok, r)
    {
      ok, r := true, v;
      if op == Encoding {
        ok := PutOpaque(v.bytes);
      } else if op == Decoding {
        var bytes;
        ok, bytes := TakeOpaque();
        r := Raw(bytes);
      } else {
        r := Raw([]);
      }
    }

    /** A fixed-length array: its elements in order, stopping at the first failure. */
    method VectorOf(n: nat, e: Shape, v: Value) returns (ok: bool, r: Value)
      requires Element(e)
      requires op != Decoding ==> Fits(Vector(n, e), v)
      modifies this
      ensures Did(Vector(n, e), v, old(Now()), Now(), ok, r)
      decreases Level(e), 2
    {
      ghost var t0 := Now();
      var rs: seq<Value> := [];
      ElemsStart(e, n, v, t0);
      for i := 0 to n
        invariant ElemsDone(e, n, v, i, t0, Now(), rs)
      {
        ghost var t := Now();
        ElemFits(e, n, v, i, t0, t, rs);
        var okI, x := ElementCode(e, Slot(v, i));
        ElemsStep(e, n, v, i, t0, t, rs, Now(), okI, x, v);
        if !okI { return false, v; }
        rs := rs + [x];
      }
      ElemsEnd(e, n, v, t0, Now(), rs);
      return true, Items(rs);
    }

    /** The element routine an array is coded with. */
    method ElementCode(e: Shape, v: Value) returns (ok: bool, r: Value)
      requires Element(e)
      requires op != Decoding ==> Fits(e, v)
      modifies this
      ensures Did(e, v, old(Now()), Now(), ok, r)
      decreases Level(e), 1
    {
      if e == UShort { ok, r := UShortCode(v); }
      else if e == UInt { ok, r := UIntCode(v); }
      else if e == UHyper { ok, r := UHyperCode(v); }
      else if e == FPXREG { ok, r := FpxReg(v); }
      else { ok, r := XmmReg(v); }
    }

    // ----- the inline path

    /** Space reserved in the output, or nothing; the transport decides. */
    method InlineOut(n: nat) returns (granted: bool, at: nat)
      modifies this
      ensures granted ==> n <= old(room) && at == |old(out)|
      ensures Now() == if granted then old(Now()).(out := old(out) + Zeros(n), room := old(room) - n) else old(Now())
    {
      granted, at := *, |out|;
      granted := granted && n <= room;
      if granted {
        out, room := out + Zeros(n), room - n;
      }
    }

    /** Bytes handed over from the input, or nothing; the transport decides. */
    method InlineIn(n: nat) returns (granted: bool, buf: seq<Byte>)
      modifies this
      ensures granted ==> n <= |old(input)| && buf == old(input)[..n]
      ensures Now() == if granted then old(Now()).(input := old(input)[n..]) else old(Now())
    {
      granted, buf := *, [];
      granted := granted && n <= |input|;
      if granted {
        buf, input := input[..n], input[n..];
      }
    }

    /** Fills reserved space with k units, in place. */
    method PutInline(k: nat, at: nat, v: Value)
      requires Fits(Vector(k, UInt), v)
      requires at + 4 * k == |out|
      modifies this`out
      ensures out == old(out)[..at] + Encode(Vector(k, UInt), v)
    {
      var buf := at;
      ghost var t0 := Tape(Encoding, out[..at], 4 * k, []);
      ElemsStart(UInt, k, v, t0);
      assert v.items[..0] == [];
      for i := 0 to k
        invariant buf == at + 4 * i && |out| == at + 4 * k
        invariant ElemsDone(UInt, k, v, i, t0, Tape(Encoding, out[..buf], 4 * k - 4 * i, []), v.items[..i])
      {
        ghost var t := Tape(Encoding, out[..buf], 4 * k - 4 * i, []);
        ElemFits(UInt, k, v, i, t0, t, v.items[..i]);
        out := out[..buf] + Word(v.items[i].n) + out[buf + 4..];
        buf := buf + 4;
        ghost var t1 := Tape(Encoding, out[..buf], 4 * k - 4 * (i + 1), []);
        assert t1.out == t.out + Word(v.items[i].n);
        ElemsNext(UInt, k, v, i, t0, t, v.items[..i], t1, v.items[i]);
        assert v.items[..i] + [v.items[i]] == v.items[..i + 1];
      }
      ElemsEnd(UInt, k, v, t0, Tape(Encoding, out[..buf], 0, []), v.items[..k]);
      assert out[..buf] == out;
    }

    /** Takes k units out of a handed-over buffer. */
    method GetInline(k: nat, bytes: seq<Byte>) returns (r: Value)
      requires |bytes| == 4 * k
      ensures Decode(Vector(k, UInt), bytes) == Ok(r, [])
    {
      var rs: seq<Value> := [];
      var buf := 0;
      ghost var t0 := Tape(Decoding, [], 0, bytes);
      ElemsStart(UInt, k, Num(0), t0);
      assert bytes[0..] == bytes;
      for i := 0 to k
        invariant buf == 4 * i
        invariant ElemsDone(UInt, k, Num(0), i, t0, Tape(Decoding, [], 0, bytes[buf..]), rs)
      {
        ghost var t := Tape(Decoding, [], 0, bytes[buf..]);
        var n := FromWord(bytes[buf..buf + 4]);
        assert bytes[buf..][..4] == bytes[buf..buf + 4] && bytes[buf..][4..] == bytes[buf + 4..];
        buf := buf + 4;
        ElemsNext(UInt, k, Num(0), i, t0, t, rs, Tape(Decoding, [], 0, bytes[buf..]), Num(n));
        rs := rs + [Num(n)];
      }
      ElemsEnd(UInt, k, Num(0), t0, Tape(Decoding, [], 0, bytes[buf..]), rs);
      r := Items(rs);
    }

    /**
     rpc_libc_xmmreg: one SSE register, by the inline path when the transport
     offers its buffer and by the array routine when it does not, or when the
     register is only to be freed.
     */
    method XmmReg(v: Value) returns (ok: bool, r: Value)
      requires op != Decoding ==> Fits(XMMREG, v)
      modifies this
      ensures Did(XMMREG, v, old(Now()), Now(), ok, r)
      decreases 1, 0
    {
      ghost var t0 := Now();
      ghost var fs := XMMREG.fields;
      FieldsStart(fs, v, t0);
      var elems := Slot(v, 0);
      ok := true;
      var granted := false;
      if op == Encoding {
        var at;
        granted, at := InlineOut(16);
        if granted {
          PutInline(4, at, elems);
          InlineSize(elems);
          r := elems;
        }
      } else if op == Decoding {
        var buf;
        granted, buf := InlineIn(16);
        if granted {
          r := GetInline(4, buf);
          InlineDecode(4, t0.input, r);
        }
      }
      if !granted {
        ok, r := VectorOf(4, UInt, elems);
      }
      assert Did(Vector(4, UInt), elems, t0, Now(), ok, r);
      FieldsStep(fs, v, 0, t0, t0, [], Now(), ok, r, v);
      if !ok { return false, v; }
      FieldsEnd(fs, v, t0, Now(), [r]);
      r := Items([r]);
    }

    // ----- structures

    /** rpc__sigset_t: the signal mask. */
    method Sigset(v: Value) returns (ok: bool, r: Value)
      requires op != Decoding ==> Fits(SIGSET, v)
      modifies this
      ensures Did(SIGSET, v, old(Now()), Now(), ok, r)
    {
      ghost var t0 := Now();
      ghost var fs := SIGSET.fields;
      FieldsStart(fs, v, t0);
      var rs: seq<Value> := [];
      r := Items(rs);

      ghost var t1 := Now();
      var ok0, r0 := VectorOf(16, UHyper, Slot(v, 0));
      FieldsStep(fs, v, 0, t0, t1, rs, Now(), ok0, r0, r);
      if !ok0 { return false, r; }
      rs := rs + [r0];

      FieldsEnd(fs, v, t0, Now(), rs);
      return true, Items(rs);
    }

    /** rpc_libc_fpxreg: one x87 register. */
    method FpxReg(v: Value) returns (ok: bool, r: Value)
      requires op != Decoding ==> Fits(FPXREG, v)
      modifies this
      ensures Did(FPXREG, v, old(Now()), Now(), ok, r)
      decreases 1, 0
    {
      ghost var t0 := Now();
      ghost var fs := FPXREG.fields;
      FieldsStart(fs, v, t0);
      var rs: seq<Value> := [];
      r := Items(rs);

      ghost var t1 := Now();
      var ok0, r0 := VectorOf(4, UShort, Slot(v, 0));
      FieldsStep(fs, v, 0, t0, t1, rs, Now(), ok0, r0, r);
      if !ok0 { return false, r; }
      rs := rs + [r0];

      ghost var t2 := Now();
      var ok1, r1 := UShortCode(Slot(v, 1));
      FieldsStep(fs, v, 1, t0, t2, rs, Now(), ok1, r1, r);
      if !ok1 { return false, r; }
      rs := rs + [r1];

      ghost var t3 := Now();
      var ok2, r2 := VectorOf(3, UShort, Slot(v, 2));
      FieldsStep(fs, v, 2, t0, t3, rs, Now(), ok2, r2, r);
      if !ok2 { return false, r; }
      rs := rs + [r2];

      FieldsEnd(fs, v, t0, Now(), rs);
      return true, Items(rs);
    }

    /** rpc_mcontext: the machine context. */
    method Mcontext(v: Value) returns (ok: bool, r: Value)
      requires op != Decoding ==> Fits(MCONTEXT, v)
      modifies this
      ensures Did(MCONTEXT, v, old(Now()), Now(), ok, r)
    {
      ghost var t0 := Now();
      ghost var fs := MCONTEXT.fields;
      FieldsStart(fs, v, t0);
      var rs: seq<Value> := [];
      r := Items(rs);

      ghost var t1 := Now();
      var ok0, r0 := VectorOf(23, UHyper, Slot(v, 0));
      FieldsStep(fs, v, 0, t0, t1, rs, Now(), ok0, r0, r);
      if !ok0 { return false, r; }
      rs := rs + [r0];

      ghost var t2 := Now();
      var ok1, r1 := FpState(Slot(v, 1));
      FieldsStep(fs, v, 1, t0, t2, rs, Now(), ok1, r1, r);
      if !ok1 { return false, r; }
      rs := rs + [r1];

      ghost var t3 := Now();
      var ok2, r2 := VectorOf(8, UHyper, Slot(v, 2));
      FieldsStep(fs, v, 2, t0, t3, rs, Now(), ok2, r2, r);
      if !ok2 { return false, r; }
      rs := rs + [r2];

      FieldsEnd(fs, v, t0, Now(), rs);
      return true, Items(rs);
    }

    /** rpc_stack_t: the stack flags and the stack itself. */
    method Stack(v: Value) returns (ok: bool, r: Value)
      requires op != Decoding ==> Fits(STACK, v)
      modifies this
      ensures Did(STACK, v, old(Now()), Now(), ok, r)
    {
      ghost var t0 := Now();
      ghost var fs := STACK.fields;
      FieldsStart(fs, v, t0);
      var rs: seq<Value> := [];
      r := Items(rs);

      ghost var t1 := Now();
      var ok0, r0 := IntCode(Slot(v, 0));
      FieldsStep(fs, v, 0, t0, t1, rs, Now(), ok0, r0, r);
      if !ok0 { return false, r; }
      rs := rs + [r0];

      ghost var t2 := Now();
      var ok1, r1 := BytesCode(Slot(v, 1));
      FieldsStep(fs, v, 1, t0, t2, rs, Now(), ok1, r1, r);
      if !ok1 { return false, r; }
      rs := rs + [r1];

      FieldsEnd(fs, v, t0, Now(), rs);
      return true, Items(rs);
    }

    /** uc_flags, uc_stack of rpc_ucontext. */
    method ContextHead(v: Value, ghost t0: Tape, done: seq<Value>) returns (ok: bool, rs: seq<Value>)
      requires t0.op == op && FieldsDone(UCONTEXT.fields, v, 0, t0, Now(), done)
      modifies this
      ensures ok ==> FieldsDone(UCONTEXT.fields, v, 2, t0, Now(), rs)
      ensures !ok ==> Did(UCONTEXT, v, t0, Now(), false, v)
    {
      ghost var fs := UCONTEXT.fields;
      rs := done;

      ghost var t1 := Now();
      FieldFits(fs, v, 0, t0, t1, rs);
      var ok0, r0 := UHyperCode(Slot(v, 0));
      FieldsStep(fs, v, 0, t0, t1, rs, Now(), ok0, r0, v);
      if !ok0 { return false, rs; }
      rs := rs + [r0];

      ghost var t2 := Now();
      var ok1, r1 := Stack(Slot(v, 1));
      FieldsStep(fs, v, 1, t0, t2, rs, Now(), ok1, r1, v);
      if !ok1 { return false, rs; }
      rs := rs + [r1];

      ok := true;
    }

    /** uc_mcontext, uc_sigmask, __fpregs_mem of rpc_ucontext. */
    method ContextRest(v: Value, ghost t0: Tape, done: seq<Value>) returns (ok: bool, rs: seq<Value>)
      requires t0.op == op && FieldsDone(UCONTEXT.fields, v, 2, t0, Now(), done)
      modifies this
      ensures ok ==> FieldsDone(UCONTEXT.fields, v, 5, t0, Now(), rs)
      ensures !ok ==> Did(UCONTEXT, v, t0, Now(), false, v)
    {
      ghost var fs := UCONTEXT.fields;
      rs := done;

      ghost var t3 := Now();
      FieldFits(fs, v, 2, t0, t3, rs);
      var ok2, r2 := Mcontext(Slot(v, 2));
      FieldsStep(fs, v, 2, t0, t3, rs, Now(), ok2, r2, v);
      if !ok2 { return false, rs; }
      rs := rs + [r2];

      ghost var t4 := Now();
      var ok3, r3 := Sigset(Slot(v, 3));
      FieldsStep(fs, v, 3, t0, t4, rs, Now(), ok3, r3, v);
      if !ok3 { return false, rs; }
      rs := rs + [r3];

      ghost var t5 := Now();
      var ok4, r4 := FpState(Slot(v, 4));
      FieldsStep(fs, v, 4, t0, t5, rs, Now(), ok4, r4, v);
      if !ok4 { return false, rs; }
      rs := rs + [r4];

      ok := true;
    }

    /** rpc_ucontext: a whole thread context, its five members in order. */
    method Ucontext(v: Value) returns (ok: bool, r: Value)
      requires op != Decoding ==> Fits(UCONTEXT, v)
      modifies this
      ensures Did(UCONTEXT, v, old(Now()), Now(), ok, r)
    {
      ghost var t0 := Now();
      FieldsStart(UCONTEXT.fields, v, t0);
      var rs;
      ok, rs := ContextHead(v, t0, []);
      if ok { ok, rs := ContextRest(v, t0, rs); }
      if !ok { return false, v; }
      FieldsEnd(UCONTEXT.fields, v, t0, Now(), rs);
      r := Items(rs);
    }

    /** RequestPack: one lock request. */
    method RequestPack(v: Value) returns (ok: bool, r: Value)
      requires op != Decoding ==> Fits(REQUESTPACK, v)
      modifies this
      ensures Did(REQUESTPACK, v, old(Now()), Now(), ok, r)
    {
      ghost var t0 := Now();
      ghost var fs := REQUESTPACK.fields;
      FieldsStart(fs, v, t0);
      var rs: seq<Value> := [];
      r := Items(rs);

      ghost var t1 := Now();
      var ok0, r0 := IntCode(Slot(v, 0));
      FieldsStep(fs, v, 0, t0, t1, rs, Now(), ok0, r0, r);
      if !ok0 { return false, r; }
      rs := rs + [r0];

      ghost var t2 := Now();
      var ok1, r1 := IntCode(Slot(v, 1));
      FieldsStep(fs, v, 1, t0, t2, rs, Now(), ok1, r1, r);
      if !ok1 { return false, r; }
      rs := rs + [r1];

      ghost var t3 := Now();
      var ok2, r2 := UHyperCode(Slot(v, 2));
      FieldsStep(fs, v, 2, t0, t3, rs, Now(), ok2, r2, r);
      if !ok2 { return false, r; }
      rs := rs + [r2];

      FieldsEnd(fs, v, t0, Now(), rs);
      return true, Items(rs);
    }

    /** cwd, swd, ftw, fop of rpc_libc_fpstate. */
    method FpControl(v: Value, ghost t0: Tape, done: seq<Value>) returns (ok: bool, rs: seq<Value>)
      requires t0.op == op && FieldsDone(FPSTATE.fields, v, 0, t0, Now(), done)
      modifies this
      ensures ok ==> FieldsDone(FPSTATE.fields, v, 4, t0, Now(), rs)
      ensures !ok ==> Did(FPSTATE, v, t0, Now(), false, v)
    {
      ghost var fs := FPSTATE.fields;
      rs := done;

      ghost var t1 := Now();
      FieldFits(fs, v, 0, t0, t1, rs);
      var ok0, r0 := UShortCode(Slot(v, 0));
      FieldsStep(fs, v, 0, t0, t1, rs, Now(), ok0, r0, v);
      if !ok0 { return false, rs; }
      rs := rs + [r0];

      ghost var t2 := Now();
      var ok1, r1 := UShortCode(Slot(v, 1));
      FieldsStep(fs, v, 1, t0, t2, rs, Now(), ok1, r1, v);
      if !ok1 { return false, rs; }
      rs := rs + [r1];

      ghost var t3 := Now();
      var ok2, r2 := UShortCode(Slot(v, 2));
      FieldsStep(fs, v, 2, t0, t3, rs, Now(), ok2, r2, v);
      if !ok2 { return false, rs; }
      rs := rs + [r2];

      ghost var t4 := Now();
      var ok3, r3 := UShortCode(Slot(v, 3));
      FieldsStep(fs, v, 3, t0, t4, rs, Now(), ok3, r3, v);
      if !ok3 { return false, rs; }
      rs := rs + [r3];

      ok := true;
    }

    /** rip, rdp of rpc_libc_fpstate. */
    method FpPointers(v: Value, ghost t0: Tape, done: seq<Value>) returns (ok: bool, rs: seq<Value>)
      requires t0.op == op && FieldsDone(FPSTATE.fields, v, 4, t0, Now(), done)
      modifies this
      ensures ok ==> FieldsDone(FPSTATE.fields, v, 6, t0, Now(), rs)
      ensures !ok ==> Did(FPSTATE, v, t0, Now(), false, v)
    {
      ghost var fs := FPSTATE.fields;
      rs := done;

      ghost var t5 := Now();
      FieldFits(fs, v, 4, t0, t5, rs);
      var ok4, r4 := UHyperCode(Slot(v, 4));
      FieldsStep(fs, v, 4, t0, t5, rs, Now(), ok4, r4, v);
      if !ok4 { return false, rs; }
      rs := rs + [r4];

      ghost var t6 := Now();
      var ok5, r5 := UHyperCode(Slot(v, 5));
      FieldsStep(fs, v, 5, t0, t6, rs, Now(), ok5, r5, v);
      if !ok5 { return false, rs; }
      rs := rs + [r5];

      ok := true;
    }

    /** mxcsr, mxcr_mask of rpc_libc_fpstate. */
    method FpMxcsr(v: Value, ghost t0: Tape, done: seq<Value>) returns (ok: bool, rs: seq<Value>)
      requires t0.op == op && FieldsDone(FPSTATE.fields, v, 6, t0, Now(), done)
      modifies this
      ensures ok ==> FieldsDone(FPSTATE.fields, v, 8, t0, Now(), rs)
      ensures !ok ==> Did(FPSTATE, v, t0, Now(), false, v)
    {
      ghost var fs := FPSTATE.fields;
      rs := done;

      ghost var t7 := Now();
      FieldFits(fs, v, 6, t0, t7, rs);
      var ok6, r6 := UIntCode(Slot(v, 6));
      FieldsStep(fs, v, 6, t0, t7, rs, Now(), ok6, r6, v);
      if !ok6 { return false, rs; }
      rs := rs + [r6];

      ghost var t8 := Now();
      var ok7, r7 := UIntCode(Slot(v, 7));
      FieldsStep(fs, v, 7, t0, t8, rs, Now(), ok7, r7, v);
      if !ok7 { return false, rs; }
      rs := rs + [r7];

      ok := true;
    }

    /** _st, _xmm, padding of rpc_libc_fpstate. */
    method FpRegisters(v: Value, ghost t0: Tape, done: seq<Value>) returns (ok: bool, rs: seq<Value>)
      requires t0.op == op && FieldsDone(FPSTATE.fields, v, 8, t0, Now(), done)
      modifies this
      ensures ok ==> FieldsDone(FPSTATE.fields, v, 11, t0, Now(), rs)
      ensures !ok ==> Did(FPSTATE, v, t0, Now(), false, v)
    {
      ghost var fs := FPSTATE.fields;
      rs := done;

      ghost var t9 := Now();
      FieldFits(fs, v, 8, t0, t9, rs);
      var ok8, r8 := VectorOf(8, FPXREG, Slot(v, 8));
      FieldsStep(fs, v, 8, t0, t9, rs, Now(), ok8, r8, v);
      if !ok8 { return false, rs; }
      rs := rs + [r8];

      ghost var t10 := Now();
      var ok9, r9 := VectorOf(16, XMMREG, Slot(v, 9));
      FieldsStep(fs, v, 9, t0, t10, rs, Now(), ok9, r9, v);
      if !ok9 { return false, rs; }
      rs := rs + [r9];

      ghost var t11 := Now();
      var ok10, r10 := VectorOf(24, UInt, Slot(v, 10));
      FieldsStep(fs, v, 10, t0, t11, rs, Now(), ok10, r10, v);
      if !ok10 { return false, rs; }
      rs := rs + [r10];

      ok := true;
    }

    /** rpc_libc_fpstate: the floating-point state, its eleven members in order. */
    method FpState(v: Value) returns (ok: bool, r: Value)
      requires op != Decoding ==> Fits(FPSTATE, v)
      modifies this
      ensures Did(FPSTATE, v, old(Now()), Now(), ok, r)
    {
      ghost var t0 := Now();
      FieldsStart(FPSTATE.fields, v, t0);
      var rs;
      ok, rs := FpControl(v, t0, []);
      if ok { ok, rs := FpPointers(v, t0, rs); }
      if ok { ok, rs := FpMxcsr(v, t0, rs); }
      if ok { ok, rs := FpRegisters(v, t0, rs); }
      if !ok { return false, v; }
      FieldsEnd(FPSTATE.fields, v, t0, Now(), rs);
      r := Items(rs);
    }
  }

  lemma InlineSize(v: Value)
    requires Fits(Vector(4, UInt), v)
    ensures |Encode(Vector(4, UInt), v)| == 16
  {
    EncodedSize(Vector(4, UInt), v);
    NoOpaqueSize(Vector(4, UInt), v);
  }

  /** Decoding k units looks at 4k bytes only. */
  lemma InlineDecode(k: nat, b: seq<Byte>, r: Value)
    requires |b| >= 4 * k && Decode(Vector(k, UInt), b[..4 * k]) == Ok(r, [])
    ensures Decode(Vector(k, UInt), b) == Ok(r, b[4 * k..])
  {
    var front, back := b[..4 * k], b[4 * k..];
    UnitsPrefix(k, front, back);
    assert front + back == b && [] + back == back;
  }

  lemma {:induction false} UnitsPrefix(k: nat, b: seq<Byte>, rest: seq<Byte>)
    requires DecodeAll(UInt, k, b).Ok?
    ensures DecodeAll(UInt, k, b + rest) == Ok(DecodeAll(UInt, k, b).value, DecodeAll(UInt, k, b).rest + rest)
  {
    if k > 0 {
      assert (b + rest)[..4] == b[..4] && (b + rest)[4..] == b[4..] + rest;
      UnitsPrefix(k - 1, b[4..], rest);
    }
  }

  // ----- what follows for whole objects

  /** Whichever paths were taken, the outcome, the bytes, the value and the position are the same. */
  lemma PathsAgree(sh: Shape, v: Value, t0: Tape, t1: Tape, ok1: bool, r1: Value, t2: Tape, ok2: bool, r2: Value)
    requires Did(sh, v, t0, t1, ok1, r1) && Did(sh, v, t0, t2, ok2, r2)
    ensures ok1 == ok2 && (ok1 ==> t1 == t2 && r1 == r2)
  {
  }

  /** Freeing a context gives up its stack, whatever its length, and nothing else. */
  method FreeContext(v: Value) returns (r: Value)
    requires Fits(UCONTEXT, v)
    ensures |v.items| == 5 && v.items[1].Items? && |v.items[1].items| == 2
    ensures r == Items(v.items[1 := Items([v.items[1].items[0], Raw([])])])
  {
    var releaser := new XdrStream.Releaser();
    var ok;
    ok, r := releaser.Ucontext(v);
    ContextDropped(v);
  }

  /** A context written to one stream and read from another, whatever bytes follow it, arrives unchanged. */
  method SendContext(v: Value, following: seq<Byte>, capacity: nat) returns (ok: bool, r: Value, left: seq<Byte>)
    requires Fits(UCONTEXT, v)
    ensures ok <==> 1688 + (|StackBytes(v)| + 3) / 4 * 4 <= capacity
    ensures ok ==> r == v && left == following
  {
    var writer := new XdrStream.Encoder(capacity);
    ok, r := writer.Ucontext(v);
    ContextSize(v);
    left := [];
    if ok {
      assert writer.out == Encode(UCONTEXT, v);
      var reader := new XdrStream.Decoder(writer.out + following);
      RoundTrip(UCONTEXT, v, following);
      ok, r := reader.Ucontext(Num(0));
      left := reader.input;
    }
  }
}
