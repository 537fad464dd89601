/**
 The two interface files as shapes: the thread context of psu_thread_msg.x and
 the lock request of psu_dist_lock_mgr_msg.x.
 */
module Shapes {
  import opened Xdr

  const SIGSET: Shape := Record([Vector(16, UHyper)])
  const FPXREG: Shape := Record([Vector(4, UShort), UShort, Vector(3, UShort)])
  const XMMREG: Shape := Record([Vector(4, UInt)])
  const FPSTATE: Shape := Record([
    UShort, UShort, UShort, UShort, UHyper, UHyper, UInt, UInt,
    Vector(8, FPXREG), Vector(16, XMMREG), Vector(24, UInt)])
  const GREGSET: Shape := Vector(23, UHyper)
  const MCONTEXT: Shape := Record([GREGSET, FPSTATE, Vector(8, UHyper)])
  const STACK: Shape := Record([Int, Opaque])
  const UCONTEXT: Shape := Record([UHyper, STACK, MCONTEXT, SIGSET, FPSTATE])

  const REQUESTPACK: Shape := Record([Int, Int, UHyper])

  // ----- sizes

  ghost predicate NoOpaque(sh: Shape)
    decreases sh, 1
  {
    match sh
    case Opaque => false
    case Vector(_, e) => NoOpaque(e)
    case Record(fs) => NoOpaques(fs)
    case _ => true
  }

  ghost predicate NoOpaques(fs: seq<Shape>)
    decreases fs, 0
  {
    fs == [] || (NoOpaque(fs[0]) && NoOpaques(fs[1..]))
  }

  lemma {:induction false} NoOpaqueSize(sh: Shape, v: Value)
    requires Fits(sh, v) && NoOpaque(sh)
    ensures OpaqueSize(sh, v) == 0
    decreases sh, 1
  {
    match sh
    case Vector(_, e) => NoOpaqueAll(e, v.items);
    case Record(fs) => NoOpaqueFields(fs, v.items);
    case _ =>
  }

  lemma {:induction false} NoOpaqueAll(e: Shape, vs: seq<Value>)
    requires AllFit(e, vs) && NoOpaque(e)
    ensures OpaqueAll(e, vs) == 0
    decreases e, 2, |vs|
  {
    if vs != [] {
      NoOpaqueSize(e, vs[0]);
      NoOpaqueAll(e, vs[1..]);
    }
  }

  lemma {:induction false} NoOpaqueFields(fs: seq<Shape>, vs: seq<Value>)
    requires FieldsFit(fs, vs) && NoOpaques(fs)
    ensures OpaqueFields(fs, vs) == 0
    decreases fs, 0
  {
    if fs != [] {
      NoOpaqueSize(fs[0], vs[0]);
      NoOpaqueFields(fs[1..], vs[1..]);
    }
  }

  /** Freeing leaves a value without variable-length data as it is. */
  lemma {:induction false} NoOpaqueDropped(sh: Shape, v: Value)
    requires Fits(sh, v) && NoOpaque(sh)
    ensures Dropped(sh, v) == v
    decreases sh, 1
  {
    match sh
    case Vector(_, e) => NoOpaqueDroppedAll(e, v.items);
    case Record(fs) => NoOpaqueDroppedFields(fs, v.items);
    case _ =>
  }

  lemma {:induction false} NoOpaqueDroppedAll(e: Shape, vs: seq<Value>)
    requires AllFit(e, vs) && NoOpaque(e)
    ensures DroppedAll(e, vs) == vs
    decreases e, 2, |vs|
  {
    if vs != [] {
      NoOpaqueDropped(e, vs[0]);
      NoOpaqueDroppedAll(e, vs[1..]);
    }
  }

  lemma {:induction false} NoOpaqueDroppedFields(fs: seq<Shape>, vs: seq<Value>)
    requires FieldsFit(fs, vs) && NoOpaques(fs)
    ensures DroppedFields(fs, vs) == vs
    decreases fs, 0
  {
    if fs != [] {
      NoOpaqueDropped(fs[0], vs[0]);
      NoOpaqueDroppedFields(fs[1..], vs[1..]);
    }
  }

  /** Splitting off one field of a structure. */
  lemma UnfoldSizes(fs: seq<Shape>, k: nat)
    requires 0 < k <= |fs|
    ensures FixedSizes(fs[k - 1..]) == FixedSize(fs[k - 1]) + FixedSizes(fs[k..])
    ensures NoOpaques(fs[k - 1..]) == (NoOpaque(fs[k - 1]) && NoOpaques(fs[k..]))
    ensures k == |fs| ==> FixedSizes(fs[k..]) == 0 && NoOpaques(fs[k..])
    ensures k == 1 ==> fs[k - 1..] == fs
  {
    assert fs[k - 1..][1..] == fs[k..];
  }

  lemma FpxRegSize()
    ensures FixedSize(FPXREG) == 32 && NoOpaque(FPXREG)
  {
    var fs := FPXREG.fields;
    UnfoldSizes(fs, 3);
    UnfoldSizes(fs, 2);
    UnfoldSizes(fs, 1);
  }

  lemma XmmRegSize()
    ensures FixedSize(XMMREG) == 16 && NoOpaque(XMMREG)
  {
    var fs := XMMREG.fields;
    UnfoldSizes(fs, 1);
  }

  lemma SigsetSize()
    ensures FixedSize(SIGSET) == 128 && NoOpaque(SIGSET)
  {
    var fs := SIGSET.fields;
    UnfoldSizes(fs, 1);
  }

  lemma FpStateTail()
    ensures var fs := FPSTATE.fields; FixedSizes(fs[8..]) == 608 && NoOpaques(fs[8..])
  {
    FpxRegSize();
    XmmRegSize();
    var fs := FPSTATE.fields;
    UnfoldSizes(fs, 11);
    UnfoldSizes(fs, 10);
    UnfoldSizes(fs, 9);
  }

  lemma FpStateControl()
    ensures var fs := FPSTATE.fields; FixedSizes(fs[6..]) == 616 && NoOpaques(fs[6..])
  {
    FpStateTail();
    var fs := FPSTATE.fields;
    UnfoldSizes(fs, 8);
    UnfoldSizes(fs, 7);
  }

  lemma FpStateMiddle()
    ensures var fs := FPSTATE.fields; FixedSizes(fs[4..]) == 632 && NoOpaques(fs[4..])
  {
    FpStateControl();
    var fs := FPSTATE.fields;
    UnfoldSizes(fs, 6);
    UnfoldSizes(fs, 5);
  }

  lemma FpStateFront()
    ensures var fs := FPSTATE.fields; FixedSizes(fs[2..]) == 640 && NoOpaques(fs[2..])
  {
    FpStateMiddle();
    var fs := FPSTATE.fields;
    UnfoldSizes(fs, 4);
    UnfoldSizes(fs, 3);
  }

  lemma FpStateSize()
    ensures FixedSize(FPSTATE) == 648 && NoOpaque(FPSTATE)
  {
    FpStateFront();
    var fs := FPSTATE.fields;
    UnfoldSizes(fs, 2);
    UnfoldSizes(fs, 1);
  }

  lemma McontextTail()
    ensures var fs := MCONTEXT.fields; FixedSizes(fs[2..]) == 64 && NoOpaques(fs[2..])
  {
    UnfoldSizes(MCONTEXT.fields, 3);
  }

  lemma McontextMiddle()
    ensures var fs := MCONTEXT.fields; FixedSizes(fs[1..]) == 712 && NoOpaques(fs[1..])
  {
    FpStateSize();
    McontextTail();
    UnfoldSizes(MCONTEXT.fields, 2);
  }

  lemma McontextSize()
    ensures FixedSize(MCONTEXT) == 896 && NoOpaque(MCONTEXT)
  {
    McontextMiddle();
    UnfoldSizes(MCONTEXT.fields, 1);
  }

  lemma StackSize()
    ensures FixedSize(STACK) == 8
  {
    var fs := STACK.fields;
    UnfoldSizes(fs, 2);
    UnfoldSizes(fs, 1);
  }

  lemma ContextTail()
    ensures var fs := UCONTEXT.fields; FixedSizes(fs[3..]) == 776 && NoOpaques(fs[3..])
  {
    FpStateSize();
    SigsetSize();
    UnfoldSizes(UCONTEXT.fields, 5);
    UnfoldSizes(UCONTEXT.fields, 4);
  }

  lemma ContextMiddle()
    ensures var fs := UCONTEXT.fields; FixedSizes(fs[2..]) == 1672 && NoOpaques(fs[2..])
  {
    ContextTail();
    McontextSize();
    UnfoldSizes(UCONTEXT.fields, 3);
  }

  lemma ContextFixedSize()
    ensures FixedSize(UCONTEXT) == 1688
    ensures NoOpaques(UCONTEXT.fields[2..])
  {
    ContextMiddle();
    StackSize();
    UnfoldSizes(UCONTEXT.fields, 2);
    UnfoldSizes(UCONTEXT.fields, 1);
  }

  lemma PackSize()
    ensures FixedSize(REQUESTPACK) == 16 && NoOpaque(REQUESTPACK)
  {
    var fs := REQUESTPACK.fields;
    UnfoldSizes(fs, 3);
    UnfoldSizes(fs, 2);
    UnfoldSizes(fs, 1);
  }

  /** Each field of a fitting structure fits. */
  lemma {:induction false} FieldFit(fs: seq<Shape>, vs: seq<Value>, k: nat)
    requires FieldsFit(fs, vs) && k < |fs|
    ensures |vs| == |fs| && Fits(fs[k], vs[k]) && FieldsFit(fs[k..], vs[k..])
    decreases k
  {
    if k > 0 {
      FieldFit(fs[1..], vs[1..], k - 1);
      assert fs[1..][k - 1..] == fs[k..] && vs[1..][k - 1..] == vs[k..];
    }
  }

  ghost function StackBytes(v: Value): seq<Byte>
    requires Fits(UCONTEXT, v)
  {
    FieldFit(UCONTEXT.fields, v.items, 1);
    FieldFit(STACK.fields, v.items[1].items, 1);
    v.items[1].items[1].bytes
  }

  /** Every context takes 1688 bytes and its stack, rounded up to a multiple of four. */
  lemma ContextSize(v: Value)
    requires Fits(UCONTEXT, v)
    ensures |Encode(UCONTEXT, v)| == 1688 + (|StackBytes(v)| + 3) / 4 * 4
  {
    var fs, vs := UCONTEXT.fields, v.items;
    EncodedSize(UCONTEXT, v);
    ContextFixedSize();
    FieldFit(fs, vs, 1);
    FieldFit(fs, vs, 2);
    NoOpaqueFields(fs[2..], vs[2..]);
    UnfoldOpaque(fs, vs);
    UnfoldOpaque(fs[1..], vs[1..]);
    assert fs[1..][1..] == fs[2..] && vs[1..][1..] == vs[2..];
    assert fs[0] == UHyper && fs[1] == STACK;
    StackOpaque(vs[1]);
    RoundUp(|StackBytes(v)|);
  }

  lemma UnfoldDropped(fs: seq<Shape>, vs: seq<Value>)
    requires FieldsFit(fs, vs) && fs != []
    ensures DroppedFields(fs, vs) == [Dropped(fs[0], vs[0])] + DroppedFields(fs[1..], vs[1..])
  {
  }

  lemma StackDropped(v: Value)
    requires Fits(STACK, v)
    ensures |v.items| == 2 && Dropped(STACK, v) == Items([v.items[0], Raw([])])
  {
    var fs, vs := STACK.fields, v.items;
    UnfoldDropped(fs, vs);
    UnfoldDropped(fs[1..], vs[1..]);
    assert fs[1..][1..] == [];
  }

  /** Where only the second member has variable-length data, freeing changes only that member. */
  lemma DroppedSecond(fs: seq<Shape>, vs: seq<Value>)
    requires FieldsFit(fs, vs) && |fs| >= 2 && NoOpaque(fs[0]) && NoOpaques(fs[2..])
    ensures Fits(fs[1], vs[1]) && DroppedFields(fs, vs) == vs[1 := Dropped(fs[1], vs[1])]
  {
    FieldFit(fs, vs, 1);
    UnfoldDropped(fs, vs);
    UnfoldDropped(fs[1..], vs[1..]);
    assert fs[1..][1..] == fs[2..] && vs[1..][1..] == vs[2..];
    NoOpaqueDropped(fs[0], vs[0]);
    NoOpaqueDroppedFields(fs[2..], vs[2..]);
  }

  /** Freeing a context gives up its stack and nothing else. */
  lemma ContextDropped(v: Value)
    requires Fits(UCONTEXT, v)
    ensures |v.items| == 5 && v.items[1].Items? && |v.items[1].items| == 2
    ensures Dropped(UCONTEXT, v) == Items(v.items[1 := Items([v.items[1].items[0], Raw([])])])
  {
    ContextMiddle();
    DroppedSecond(UCONTEXT.fields, v.items);
    StackDropped(v.items[1]);
  }

  lemma UnfoldOpaque(fs: seq<Shape>, vs: seq<Value>)
    requires FieldsFit(fs, vs) && fs != []
    ensures OpaqueFields(fs, vs) == OpaqueSize(fs[0], vs[0]) + OpaqueFields(fs[1..], vs[1..])
  {
  }

  lemma RoundUp(n: nat)
    ensures n + Pad(n) == (n + 3) / 4 * 4
  {
  }

  lemma StackOpaque(v: Value)
    requires Fits(STACK, v)
    ensures |v.items| == 2 && v.items[1].Raw?
    ensures OpaqueSize(STACK, v) == |v.items[1].bytes| + Pad(|v.items[1].bytes|)
  {
    var fs, vs := STACK.fields, v.items;
    FieldFit(fs, vs, 1);
    assert fs[1..] == [Opaque] && vs[1..] == [vs[1]];
    assert OpaqueFields([Opaque], [vs[1]]) == OpaqueSize(Opaque, vs[1]) + OpaqueFields([Opaque][1..], [vs[1]][1..]);
  }

  /** Every lock request takes 16 bytes. */
  lemma RequestSize(v: Value)
    requires Fits(REQUESTPACK, v)
    ensures |Encode(REQUESTPACK, v)| == 16
  {
    EncodedSize(REQUESTPACK, v);
    PackSize();
    NoOpaqueSize(REQUESTPACK, v);
  }
}
