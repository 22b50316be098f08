/**
 * The fast path of ProgrammableInvoker.getBoundMethodHandle, as specification
 * functions: the raw native handle's type, the right-to-left fold of each
 * parameter's bindings into adapters around it, the return-side filter, and the
 * try/finally that closes copied buffers.
 */
module FastPath {
  import opened Wrappers
  import opened JavaTypes
  import opened Bindings
  import opened MethodHandles

  // The library handles the chain is built from, with their types.

  const MH_UNBOX_ADDRESS: Handle := Plain(Leaf("MemoryAddressImpl.addressof"), MethodType(Long, [MemoryAddress]))
  const MH_BOX_ADDRESS: Handle := Plain(Leaf("MemoryAddress.ofLong"), MethodType(MemoryAddress, [Long]))
  const MH_BASE_ADDRESS: Handle := Plain(Leaf("MemorySegment.baseAddress"), MethodType(MemoryAddress, [MemorySegment]))
  const MH_COPY_BUFFER: Handle :=
    Plain(Leaf("BindingInterpreter.copyBuffer"), MethodType(MemorySegment, [MemorySegment, Long, Long, ListClass]))
  const MH_CLOSE_BUFFERS: Handle := Plain(Leaf("ProgrammableInvoker.closeBuffers"), MethodType(Void, [ListClass]))
  const MH_ALLOCATE_BUFFER: Handle := Plain(Leaf("MemorySegment.allocateNative"), MethodType(MemorySegment, [Long, Long]))

  /** A DEREFERENCE step's reader: the var handle's getter, reached through the segment's base address. */
  function DerefGetter(ty: JClass): (h: Handle)
    ensures h.t == MethodType(ty, [MemorySegment])
  {
    FilterArguments(Plain(Leaf("VarHandle.get"), MethodType(ty, [MemoryAddress])), 0, MH_BASE_ADDRESS).value
  }

  /** A DEREFERENCE step's writer on the return side: the var handle's setter, through the base address. */
  function DerefSetter(ty: JClass): (h: Handle)
    ensures h.t == MethodType(Void, [MemorySegment, ty])
  {
    FilterArguments(Plain(Leaf("VarHandle.set"), MethodType(Void, [MemoryAddress, ty])), 0, MH_BASE_ADDRESS).value
  }

  /** A COPY_BUFFER step's filter: copyBuffer with its size, alignment and buffer list bound. */
  function CopyFilter(): (h: Handle)
    ensures h.t == MethodType(MemorySegment, [MemorySegment])
  {
    InsertArguments(MH_COPY_BUFFER, 1, 3).value
  }

  /** An ALLOC_BUFFER step's allocator: allocateNative with its size and alignment bound. */
  function Allocator(): (h: Handle)
    ensures h.t == MethodType(MemorySegment, [])
  {
    InsertArguments(MH_ALLOCATE_BUFFER, 0, 2).value
  }

  // ---- mergeArguments ----

  /** The reorder array of mergeArguments: the merged position reads the source, the others keep their order. */
  function MergeReorder(n: nat, src: int, dst: int): (r: seq<int>)
    ensures |r| == n
  {
    seq(n, i => if i == dst then src else if i < dst then i else i - 1)
  }

  /** Positions other than `dst` keep their relative order, so dropping `dst` is a valid reorder when src < dst. */
  lemma MergeReorderFits(t: MethodType, src: int, dst: int)
    requires 0 <= src < dst < |t.params| && t.params[src] == t.params[dst]
    ensures Reorders(t, MethodType(t.ret, t.params[..dst] + t.params[dst + 1..]), MergeReorder(|t.params|, src, dst))
  {
    var nt := MethodType(t.ret, t.params[..dst] + t.params[dst + 1..]);
    var reorder := MergeReorder(|t.params|, src, dst);
    forall j | 0 <= j < |reorder|
      ensures 0 <= reorder[j] < |nt.params| && nt.params[reorder[j]] == t.params[j]
    {
      if j > dst {
        assert nt.params[j - 1] == t.params[j];
      }
    }
  }

  /**
   * mergeArguments(mh, src, dst): both positions must exist and have the same
   * class; the result drops position `dst` and passes the source's value there.
   */
  function Merge(h: Handle, src: int, dst: int): (r: Result<Handle>)
    ensures !(0 <= src < |h.t.params| && 0 <= dst < |h.t.params|) ==> r == Err(IndexOutOfBoundsException)
    ensures 0 <= src < dst < |h.t.params| ==>
              (r.Ok? <==> h.t.params[src] == h.t.params[dst])
              && (r.Ok? ==> r.value.t.params == h.t.params[..dst] + h.t.params[dst + 1..])
    ensures r.Err? && 0 <= src < |h.t.params| && 0 <= dst < |h.t.params| ==> r.error == IllegalArgumentException
    ensures r.Ok? ==> r.value == Wrap(h, r.value.t, Permute(MergeReorder(|h.t.params|, src, dst)))
                      && r.value.t.ret == h.t.ret && |r.value.t.params| == |h.t.params| - 1
  {
    var ps := h.t.params;
    if !(0 <= src < |ps|) || !(0 <= dst < |ps|) then Err(IndexOutOfBoundsException)
    else if ps[src] != ps[dst] then Err(IllegalArgumentException)
    else
      var newType := MethodType(h.t.ret, ps[..dst] + ps[dst + 1..]);
      if src < dst then
        MergeReorderFits(h.t, src, dst);
        PermuteArguments(h, newType, MergeReorder(|ps|, src, dst))
      else PermuteArguments(h, newType, MergeReorder(|ps|, src, dst))
  }

  // ---- the argument fold ----

  /** The fold's state: the handle built so far, the insertPos cursor, and the number of copies. */
  datatype FoldState = FoldState(h: Handle, insertPos: int, copies: nat)

  /** No adapter of `h` is a try/finally. */
  predicate FinallyFree(h: Handle)
  {
    forall a :: a in h.adapters ==> !a.Finally?
  }

  /** `b` wraps `a`: same origin, starting type and return class, and no try/finally added. */
  predicate Keeps(a: Handle, b: Handle)
  {
    b.origin == a.origin && b.base == a.base && b.t.ret == a.t.ret && (FinallyFree(a) ==> FinallyFree(b))
  }

  /** How a step moves the cursor: MOVE advances it, DUP steps it back, the rest leave it. */
  function Shift(b: Binding): int
  {
    if b.Move? then 1 else if b.Dup? then -1 else 0
  }

  /**
   * One argument binding, visited right to left: MOVE advances insertPos, DUP
   * merges positions insertPos - 1 and insertPos, the address, dereference and
   * copy steps filter position insertPos, and ALLOC_BUFFER is an illegal tag.
   */
  function ArgStep(s: FoldState, b: Binding): (r: Result<FoldState>)
    ensures b.Allocate? ==> r == Err(IllegalArgumentException)
    ensures r.Ok? ==> Keeps(s.h, r.value.h)
    ensures r.Ok? ==> r.value.insertPos == s.insertPos + Shift(b)
    ensures r.Ok? ==> r.value.copies == s.copies + (if b.Copy? then 1 else 0)
    ensures r.Ok? ==> |r.value.h.t.params| == |s.h.t.params| - (if b.Dup? then 1 else 0)
    ensures r.Ok? && b.Move? ==> r.value.h == s.h
  {
    match b
    case Move(_, _) => Ok(s.(insertPos := s.insertPos + 1))
    case Dup =>
      var h :- Merge(s.h, s.insertPos - 1, s.insertPos);
      Ok(FoldState(h, s.insertPos - 1, s.copies))
    case ConvertAddress => FilterAt(s, MH_UNBOX_ADDRESS, 0)
    case BaseAddress => FilterAt(s, MH_BASE_ADDRESS, 0)
    case Dereference(_, ty) => FilterAt(s, DerefGetter(ty), 0)
    case Copy(_, _) => FilterAt(s, CopyFilter(), 1)
    case Allocate(_, _) => Err(IllegalArgumentException)
  }

  /** The filter steps: `filter` is installed at insertPos, and `copied` more copies are counted. */
  function FilterAt(s: FoldState, filter: Handle, copied: nat): (r: Result<FoldState>)
    ensures r.Ok? ==> Keeps(s.h, r.value.h) && |r.value.h.t.params| == |s.h.t.params|
    ensures r.Ok? ==> r.value.insertPos == s.insertPos && r.value.copies == s.copies + copied
  {
    var h :- FilterArguments(s.h, s.insertPos, filter);
    Ok(FoldState(h, s.insertPos, s.copies + copied))
  }

  /** What folding `bs` does to the state: the cursor, copy count and parameter count follow the tags. */
  predicate Tally(s: FoldState, t: FoldState, bs: seq<Binding>)
  {
    t.insertPos == s.insertPos + Count(bs, MOVE) - Count(bs, DUP)
    && t.copies == s.copies + Count(bs, COPY_BUFFER)
    && |t.h.t.params| == |s.h.t.params| - Count(bs, DUP)
    && Keeps(s.h, t.h)
  }

  /** One parameter's bindings, folded from the last to the first. */
  function FoldParam(s: FoldState, bs: seq<Binding>): (r: Result<FoldState>)
    ensures r.Ok? ==> Tally(s, r.value, bs)
    ensures Count(bs, ALLOC_BUFFER) > 0 ==> r.Err?
    decreases |bs|
  {
    if bs == [] then Ok(s)
    else
      var s1 :- ArgStep(s, bs[|bs| - 1]);
      FoldParam(s1, bs[..|bs| - 1])
  }

  /** Every parameter's bindings, first parameter first. */
  function FoldArgs(s: FoldState, bss: seq<seq<Binding>>): (r: Result<FoldState>)
    ensures r.Ok? ==> Tally(s, r.value, Flatten(bss))
    ensures Count(Flatten(bss), ALLOC_BUFFER) > 0 ==> r.Err?
    decreases |bss|
  {
    if bss == [] then Ok(s)
    else
      CountsAppend(bss[0], Flatten(bss[1..]));
      var s1 :- FoldParam(s, bss[0]);
      FoldArgs(s1, bss[1..])
  }

  /** The counts the tally uses, over a concatenation. */
  lemma CountsAppend(a: seq<Binding>, b: seq<Binding>)
    ensures forall t :: Count(a + b, t) == Count(a, t) + Count(b, t)
  {
    forall t {
      CountAppend(a, b, t);
    }
  }

  // ---- the return side ----

  /**
   * One return binding, visited right to left: MOVE is handled by the native
   * call, CONVERT_ADDRESS boxes the first parameter, DEREFERENCE appends a setter's
   * parameters, DUP merges the first and the last-but-one parameter, ALLOC_BUFFER
   * supplies the first parameter from an allocation, and the other tags are illegal.
   */
  function RetStep(rf: Handle, b: Binding): (r: Result<Handle>)
    ensures b.BaseAddress? || b.Copy? ==> r == Err(IllegalArgumentException)
    ensures b.Move? ==> r == Ok(rf)
    ensures r.Ok? ==> r.value.origin == rf.origin && r.value.t.ret == rf.t.ret
  {
    match b
    case Move(_, _) => Ok(rf)
    case ConvertAddress => FilterArguments(rf, 0, MH_BOX_ADDRESS)
    case Dereference(_, ty) => CollectArguments(rf, |rf.t.params|, DerefSetter(ty))
    case Dup => Merge(rf, 0, |rf.t.params| - 2)
    case Allocate(_, _) => CollectArguments(rf, 0, Allocator())
    case BaseAddress => Err(IllegalArgumentException)
    case Copy(_, _) => Err(IllegalArgumentException)
  }

  /** The return bindings, folded from the last to the first. */
  function FoldRet(rf: Handle, bs: seq<Binding>): (r: Result<Handle>)
    ensures Count(bs, BASE_ADDRESS) > 0 || Count(bs, COPY_BUFFER) > 0 ==> r.Err?
    ensures r.Ok? ==> r.value.origin == rf.origin && r.value.t.ret == rf.t.ret
    decreases |bs|
  {
    if bs == [] then Ok(rf)
    else
      var rf1 :- RetStep(rf, bs[|bs| - 1]);
      FoldRet(rf1, bs[..|bs| - 1])
  }

  /** A non-void method's result is passed through the folded return filter, starting from identity. */
  function WithReturn(h: Handle, cs: CallingSequence): (r: Result<Handle>)
    ensures cs.methodType.ret == Void ==> r == Ok(h)
    ensures cs.methodType.ret != Void && (Count(cs.returnBindings, BASE_ADDRESS) > 0 || Count(cs.returnBindings, COPY_BUFFER) > 0)
            ==> r.Err?
    ensures r.Ok? ==> r.value.origin == h.origin && r.value.base == h.base
                      && r.value.t.params == h.t.params && (FinallyFree(h) ==> FinallyFree(r.value))
    ensures r.Ok? && cs.methodType.ret != Void ==> r.value.t.ret == cs.methodType.ret
  {
    if cs.methodType.ret == Void then Ok(h)
    else
      var rf :- FoldRet(Identity(cs.methodType.ret).value, cs.returnBindings);
      FilterReturnValue(h, rf)
  }

  // ---- the whole chain ----

  /** The generic handle: invoke() collecting its arguments, at the method type. */
  function FallbackHandle(cs: CallingSequence): Handle
  {
    Plain(Fallback, cs.methodType)
  }

  /** The raw native call's type: the MOVE classes, and the return MOVE's class or void. */
  function IntrinsicType(cs: CallingSequence): (t: MethodType)
  {
    var rm := RetMoves(cs);
    MethodType(if rm == [] then Void else rm[0].ty, MoveTypes(MoveBindings(cs)))
  }

  /**
   * The cleanup of the try/finally: closeBuffers over the bound list, taking the
   * Throwable and, unless the raw call is void, passing the result `v` through.
   */
  function Closer(intrinsicRet: JClass, v: JClass): (r: Result<Handle>)
  {
    var closer := InsertArguments(MH_CLOSE_BUFFERS, 0, 1).value;
    var target :- if intrinsicRet == Void then Ok(Plain(Leaf("empty"), MethodType(Void, [ThrowableClass])))
                  else (var id :- Identity(v); DropArguments(id, 0, [ThrowableClass]));
    CollectArguments(target, 0, closer)
  }

  /** The folded chain around the raw native call, before any try/finally. */
  function Chain(cs: CallingSequence): (r: Result<(FoldState, Handle)>)
  {
    var st :- FoldArgs(FoldState(Plain(Native, IntrinsicType(cs)), -1, 0), cs.argBindings);
    var h :- WithReturn(st.h, cs);
    Ok((st, h))
  }

  /**
   * getBoundMethodHandle(): the generic handle when OLD_INVOKER is set or the
   * return side moves more than one value; otherwise the chain built around the
   * raw native call, wrapped in a try/finally when a copy was folded.
   */
  function Bound(oldInvoker: bool, cs: CallingSequence): (r: Result<Handle>)
  {
    if oldInvoker || |RetMoves(cs)| > 1 then Ok(FallbackHandle(cs))
    else
      var (st, h) :- Chain(cs);
      if st.copies > 0 then
        var c :- Closer(IntrinsicType(cs).ret, h.t.ret);
        TryFinally(h, c)
      else Ok(h)
  }

  /** The generic handle is used exactly when OLD_INVOKER is set or there is more than one return MOVE. */
  lemma BoundFallback(oldInvoker: bool, cs: CallingSequence)
    ensures oldInvoker || |RetMoves(cs)| > 1 ==> Bound(oldInvoker, cs) == Ok(FallbackHandle(cs))
    ensures !(oldInvoker || |RetMoves(cs)| > 1) && Bound(oldInvoker, cs).Ok? ==> Bound(oldInvoker, cs).value.origin == Native
  {
    if !(oldInvoker || |RetMoves(cs)| > 1) && Bound(oldInvoker, cs).Ok? {
      ChainParts(cs);
      var (st, h) := Chain(cs).value;
      assert h.origin == Native;
      if st.copies > 0 {
        var c := Closer(IntrinsicType(cs).ret, h.t.ret).value;
        assert Bound(oldInvoker, cs) == TryFinally(h, c);
      } else {
        assert Bound(oldInvoker, cs) == Ok(h);
      }
    }
  }

  /** A chain that builds is the argument fold followed by the return side. */
  lemma ChainParts(cs: CallingSequence)
    requires Chain(cs).Ok?
    ensures var f := FoldArgs(FoldState(Plain(Native, IntrinsicType(cs)), -1, 0), cs.argBindings);
            f.Ok? && WithReturn(f.value.h, cs).Ok? && Chain(cs).value == (f.value, WithReturn(f.value.h, cs).value)
  {
  }

  /**
   * A chain is built around the raw native call, whose parameters are the MOVE
   * classes in order and whose result is the single return MOVE's class or void;
   * merging leaves one parameter less per DUP.
   */
  lemma BoundIntrinsic(oldInvoker: bool, cs: CallingSequence)
    requires !oldInvoker && |RetMoves(cs)| <= 1 && Bound(oldInvoker, cs).Ok?
    ensures var h := Bound(oldInvoker, cs).value;
            h.base.params == MoveTypes(MoveBindings(cs))
            && h.base.ret == (if RetMoves(cs) == [] then Void else RetMoves(cs)[0].ty)
            && |h.t.params| == |MoveBindings(cs)| - Count(Flatten(cs.argBindings), DUP)
  {
    ChainParts(cs);
    var (st, h) := Chain(cs).value;
    assert Tally(FoldState(Plain(Native, IntrinsicType(cs)), -1, 0), st, Flatten(cs.argBindings));
    if st.copies > 0 {
      var c := Closer(IntrinsicType(cs).ret, h.t.ret).value;
      assert Bound(oldInvoker, cs) == TryFinally(h, c);
    } else {
      assert Bound(oldInvoker, cs) == Ok(h);
    }
  }

  /** The cursor ends at -1 plus the number of MOVEs less the number of DUPs. */
  lemma ArgFoldCursor(cs: CallingSequence)
    requires FoldArgs(FoldState(Plain(Native, IntrinsicType(cs)), -1, 0), cs.argBindings).Ok?
    ensures var st := FoldArgs(FoldState(Plain(Native, IntrinsicType(cs)), -1, 0), cs.argBindings).value;
            st.insertPos == -1 + Count(Flatten(cs.argBindings), MOVE) - Count(Flatten(cs.argBindings), DUP)
            && st.copies == Count(Flatten(cs.argBindings), COPY_BUFFER)
  {
  }

  /**
   * ALLOC_BUFFER among the argument bindings, or BASE_ADDRESS or COPY_BUFFER among
   * the return bindings of a non-void method, makes building fail.
   */
  lemma BoundRejectsIllegalTags(cs: CallingSequence)
    requires |RetMoves(cs)| <= 1
    requires Count(Flatten(cs.argBindings), ALLOC_BUFFER) > 0
             || (cs.methodType.ret != Void && (Count(cs.returnBindings, BASE_ADDRESS) > 0 || Count(cs.returnBindings, COPY_BUFFER) > 0))
    ensures Bound(false, cs).Err?
  {
  }

  /** A try/finally is installed exactly when at least one COPY_BUFFER was folded. */
  lemma BoundFinallyIffCopies(cs: CallingSequence)
    requires |RetMoves(cs)| <= 1 && Bound(false, cs).Ok?
    ensures (exists a :: a in Bound(false, cs).value.adapters && a.Finally?) <==> Count(Flatten(cs.argBindings), COPY_BUFFER) > 0
  {
    var (st, h) := Chain(cs).value;
    assert FinallyFree(Plain(Native, IntrinsicType(cs)));
    if st.copies > 0 {
      var c := Closer(IntrinsicType(cs).ret, h.t.ret).value;
      assert Bound(false, cs).value.adapters == h.adapters + [Finally(c)];
      assert Finally(c) in Bound(false, cs).value.adapters;
    }
  }
}
