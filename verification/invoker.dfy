/**
 * ProgrammableInvoker: a downcall to native address `addr` under an ABI. It
 * builds the bound method handle (the fast path, specified in FastPath), and it
 * performs a call through the generic path (invoke) or through the raw native
 * call's fallback (invokeSpec), each of which fills an argument buffer, may
 * reserve a stack area, and releases the native memory it allocated.
 */
module Invoker {
  import opened Wrappers
  import opened JavaTypes
  import opened Layouts
  import opened Bindings
  import opened MethodHandles
  import opened FastPath
  import opened Arenas

  // ---- native memory as the invoker writes it ----

  /** An address: an offset into an allocated segment, or a raw number (an offset from NULL). */
  datatype Addr = At(segment: nat, offset: int) | Raw(address: int)

  /** A value written to native memory: a plain number, a segment's base address, or the i-th argument. */
  datatype Word = Bits(v: int) | AddressOf(segment: nat) | ArgValue(i: nat)

  /** One write of a value of class `ty` at `at`. */
  datatype Store = Store(at: Addr, ty: JClass, value: Word)

  /** A read of a value of class `ty` at `at`: what the call returns. */
  datatype Read = Read(at: Addr, ty: JClass)

  /**
   * The argument buffer's layout for an ABI: its size, the offsets of its three
   * header words, and where each register's value goes. BufferLayout is not part of
   * this model; only the parts the invoker uses appear here.
   */
  datatype BufferLayout = BufferLayout(
    size: nat,
    argumentsNextPc: int,
    stackArgsBytes: int,
    stackArgs: int,
    argOffset: VMStorage -> int,
    retOffset: VMStorage -> int)

  /** The header of the argument buffer: the target, the stack byte count, and the stack area's address or NULL. */
  function Header(layout: BufferLayout, argBuffer: nat, stackSeg: Option<nat>, addr: int, stackArgsBytes: nat): (r: seq<Store>)
    ensures |r| == 3 && forall k :: 0 <= k < 3 ==> r[k].ty == Long && r[k].at.At? && r[k].at.segment == argBuffer
    ensures r[2].value == if stackSeg.Some? then AddressOf(stackSeg.value) else Bits(0)
  {
    [Store(At(argBuffer, layout.argumentsNextPc), Long, Bits(addr)),
     Store(At(argBuffer, layout.stackArgsBytes), Long, Bits(stackArgsBytes)),
     Store(At(argBuffer, layout.stackArgs), Long, if stackSeg.Some? then AddressOf(stackSeg.value) else Bits(0))]
  }

  /** Every step of `bs` is a MOVE. */
  predicate AllMoves(bs: seq<Binding>)
  {
    forall i :: 0 <= i < |bs| ==> bs[i].Move?
  }

  /** The segments from allocation number `from` on are open, and the earlier ones are as in `before`. */
  predicate OpenFrom(before: seq<bool>, live: seq<bool>, from: nat)
  {
    |before| == from <= |live| && live[..from] == before && forall k :: from <= k < |live| ==> live[k]
  }

  /** `n` segments were allocated after `before`, and all of them are closed again. */
  predicate Released(before: seq<bool>, live: seq<bool>, n: nat)
  {
    |live| == |before| + n && live[..|before|] == before && forall k :: |before| <= k < |live| ==> !live[k]
  }

  // ---- the adapter stubs ----

  /** computeIfAbsent on the stub map: the stub already generated for the ABI, or the new one, recorded. */
  function StubLookup(stubs: map<ABIDescriptor, int>, abi: ABIDescriptor, generated: int): (int, map<ABIDescriptor, int>)
  {
    if abi in stubs then (stubs[abi], stubs) else (generated, stubs[abi := generated])
  }

  /**
   * One adapter per ABI: after a lookup, a second lookup of the same ABI returns the
   * same stub and changes nothing, whatever stub it would have generated, and the
   * stubs of the other ABIs are untouched.
   */
  lemma StubPerABI(stubs: map<ABIDescriptor, int>, abi: ABIDescriptor, g1: int, g2: int)
    ensures var (s1, m1) := StubLookup(stubs, abi, g1);
            StubLookup(m1, abi, g2) == (s1, m1)
            && abi in m1 && m1[abi] == s1
            && forall a :: a != abi ==> (a in m1 <==> a in stubs) && (a in stubs ==> m1[a] == stubs[a])
  {
  }

  /** The shared map from ABI to adapter stub address. */
  class StubCache {
    var stubs: map<ABIDescriptor, int>

    constructor()
      ensures stubs == map[]
    {
      stubs := map[];
    }

    /** adapterStubs.computeIfAbsent(abi, generateAdapter): `generated` stands for the stub the native generator returns. */
    method ComputeIfAbsent(abi: ABIDescriptor, generated: int) returns (stub: int)
      modifies this
      ensures (stub, stubs) == StubLookup(old(stubs), abi, generated)
    {
      if abi in stubs {
        return stubs[abi];
      }
      stubs := stubs[abi := generated];
      return generated;
    }
  }

  // ---- buffers ----

  /**
   * `n` fresh copy buffers, added to `tempBuffers`: the buffers the copy steps of
   * an unbox allocate.
   */
  method CopyBuffers(arena: Arena, n: nat, tempBuffers: seq<nat>) returns (buffers: seq<nat>)
    modifies arena
    ensures arena.live == old(arena.live) + seq(n, _ => true)
    ensures |arena.live| == old(|arena.live|) + n
    ensures OpenFrom(old(arena.live), arena.live, old(|arena.live|))
    ensures buffers == tempBuffers + Range(old(|arena.live|), |arena.live|)
  {
    buffers := tempBuffers;
    for k := 0 to n
      invariant arena.live == old(arena.live) + seq(k, _ => true)
      invariant buffers == tempBuffers + Range(old(|arena.live|), |arena.live|)
    {
      var id := arena.Allocate();
      buffers := buffers + [id];
      assert old(arena.live) + seq(k, _ => true) + [true] == old(arena.live) + seq(k + 1, _ => true);
    }
    assert arena.live[..old(|arena.live|)] == old(arena.live);
  }

  /**
   * Entering a call: the argument buffer, then a stack area when `stackArgsBytes`
   * is positive; both are open.
   */
  method OpenCallBuffers(arena: Arena, stackArgsBytes: nat) returns (argBuffer: nat, stackSeg: Option<nat>)
    modifies arena
    ensures argBuffer == old(|arena.live|)
    ensures stackSeg == if stackArgsBytes > 0 then Some(argBuffer + 1) else None
    ensures |arena.live| == argBuffer + 1 + (if stackArgsBytes > 0 then 1 else 0)
    ensures OpenFrom(old(arena.live), arena.live, argBuffer)
    ensures (if stackSeg.Some? then [stackSeg.value] else []) == Range(argBuffer + 1, |arena.live|)
  {
    argBuffer := arena.Allocate();
    stackSeg := None;
    if stackArgsBytes > 0 {
      var seg := arena.Allocate();
      stackSeg := Some(seg);
    }
    assert arena.live[..argBuffer] == old(arena.live);
  }

  /**
   * Leaving a call: try-with-resources closes the argument buffer, then the
   * finally block closes the buffers allocated after it, none of which can
   * already be closed.
   */
  method Release(arena: Arena, ghost before: seq<bool>, argBuffer: nat, others: seq<nat>)
    requires OpenFrom(before, arena.live, argBuffer) && argBuffer < |arena.live|
    requires others == Range(argBuffer + 1, |arena.live|)
    modifies arena
    ensures Released(before, arena.live, old(|arena.live|) - argBuffer)
  {
    var closeArgs := arena.Close(argBuffer);
    assert closeArgs.None?;
    ghost var mid := arena.live;
    CloseOpenSucceeds(mid, others);
    var closeOthers := CloseBuffers(arena, others);
    assert closeOthers.None?;
    forall k | argBuffer < k < |arena.live|
      ensures !arena.live[k]
    {
      assert others[k - argBuffer - 1] == k;
    }
    assert arena.live[..argBuffer] == before by {
      assert forall k :: 0 <= k < argBuffer ==> arena.live[k] == mid[k];
    }
  }

  /** Flattening a list with one more parameter appends that parameter's bindings. */
  lemma {:induction false} FlattenSnoc(bss: seq<seq<Binding>>, bs: seq<Binding>)
    ensures Flatten(bss + [bs]) == Flatten(bss) + bs
    decreases |bss|
  {
    if bss == [] {
      assert Flatten([bs]) == bs + Flatten([]);
    } else {
      assert (bss + [bs])[1..] == bss[1..] + [bs];
      FlattenSnoc(bss[1..], bs);
    }
  }

  /** The copy steps of the first `i` parameters, one more parameter at a time. */
  lemma CopiesStep(bss: seq<seq<Binding>>, i: nat)
    requires i < |bss|
    ensures Count(Flatten(bss[..i + 1]), COPY_BUFFER) == Count(Flatten(bss[..i]), COPY_BUFFER) + Count(bss[i], COPY_BUFFER)
  {
    assert bss[..i + 1] == bss[..i] + [bss[i]];
    FlattenSnoc(bss[..i], bss[i]);
    CountAppend(Flatten(bss[..i]), bss[i], COPY_BUFFER);
  }

  /** Consecutive allocation numbers join up. */
  lemma RangeAppend(a: nat, b: nat, c: nat)
    requires a <= b <= c
    ensures Range(a, b) + Range(b, c) == Range(a, c)
  {
  }

  /** Segments opened after `b`, which were opened after `a`, were all opened after `a`. */
  lemma OpenFromTrans(a: seq<bool>, b: seq<bool>, c: seq<bool>, i: nat, j: nat)
    requires OpenFrom(a, b, i) && OpenFrom(b, c, j)
    ensures OpenFrom(a, c, i)
  {
    assert c[..i] == c[..j][..i];
  }

  /** The number of parameters an invoke unboxes: up to and including the one whose unboxing fails, if any. */
  function Reached(failAt: Option<nat>, n: nat): (r: nat)
    ensures r <= n
  {
    if failAt.Some? && failAt.value < n then failAt.value + 1 else n
  }

  /**
   * The argument loop of invoke: each parameter's bindings are unboxed in turn,
   * its copy steps adding buffers to tempBuffers, until the unboxing of argument
   * `failAt`, if any, throws after its copies were made.
   */
  method UnboxArguments(arena: Arena, bss: seq<seq<Binding>>, failAt: Option<nat>, tempBuffers: seq<nat>)
    returns (failed: bool, buffers: seq<nat>)
    modifies arena
    ensures failed <==> failAt.Some? && failAt.value < |bss|
    ensures Unboxed(old(arena.live), arena.live, tempBuffers, buffers, Count(Flatten(bss[..Reached(failAt, |bss|)]), COPY_BUFFER))
  {
    buffers := tempBuffers;
    failed := false;
    var i := 0;
    ghost var copied := 0;
    assert bss[..0] == [];
    while i < |bss| && !failed
      invariant 0 <= i <= |bss|
      invariant failed <==> failAt.Some? && failAt.value < i
      invariant failed ==> failAt.value == i - 1
      invariant copied == Count(Flatten(bss[..i]), COPY_BUFFER)
      invariant Unboxed(old(arena.live), arena.live, tempBuffers, buffers, copied)
    {
      CopiesStep(bss, i);
      ghost var before := arena.live;
      ghost var buffersBefore := buffers;
      var n := Count(bss[i], COPY_BUFFER);
      buffers := CopyBuffers(arena, n, buffers);
      UnboxedStep(old(arena.live), before, arena.live, tempBuffers, buffersBefore, buffers, copied, n);
      copied := copied + n;
      failed := failAt == Some(i);
      i := i + 1;
    }
    assert i == Reached(failAt, |bss|);
  }

  /** `n` segments were opened after `start`, all still open, and their numbers were added to `tempBuffers`. */
  predicate Unboxed(start: seq<bool>, live: seq<bool>, tempBuffers: seq<nat>, buffers: seq<nat>, n: nat)
  {
    |live| == |start| + n && OpenFrom(start, live, |start|) && buffers == tempBuffers + Range(|start|, |live|)
  }

  /** Opening `c` more segments and adding them to the list extends what was unboxed. */
  lemma UnboxedStep(start: seq<bool>, live: seq<bool>, live1: seq<bool>,
                    tempBuffers: seq<nat>, buffers: seq<nat>, buffers1: seq<nat>, n: nat, c: nat)
    requires Unboxed(start, live, tempBuffers, buffers, n)
    requires |live1| == |live| + c && OpenFrom(live, live1, |live|) && buffers1 == buffers + Range(|live|, |live1|)
    ensures Unboxed(start, live1, tempBuffers, buffers1, n + c)
  {
    RangeAppend(|start|, |live|, |live1|);
    OpenFromTrans(start, live, live1, |start|, |live|);
  }

  // ---- the bound handle's folds ----

  /** mergeArguments(mh, sourceIndex, destIndex), with its reorder array filled by a loop. */
  method MergeArguments(h: Handle, src: int, dst: int) returns (r: Result<Handle>)
    ensures r == Merge(h, src, dst)
  {
    var ps := h.t.params;
    if !(0 <= src < |ps|) || !(0 <= dst < |ps|) {
      return Err(IndexOutOfBoundsException);
    }
    if ps[src] != ps[dst] {
      return Err(IllegalArgumentException);
    }
    var newType := MethodType(h.t.ret, ps[..dst] + ps[dst + 1..]);
    var reorder := new int[|ps|];
    var index := 0;
    for i := 0 to |ps|
      invariant index == if i <= dst then i else i - 1
      invariant reorder[..i] == MergeReorder(|ps|, src, dst)[..i]
    {
      if i != dst {
        reorder[i] := index;
        index := index + 1;
      } else {
        reorder[i] := src;
      }
    }
    assert reorder[..] == MergeReorder(|ps|, src, dst) by {
      assert reorder[..] == reorder[..|ps|];
      assert MergeReorder(|ps|, src, dst)[..|ps|] == MergeReorder(|ps|, src, dst);
    }
    if src < dst {
      MergeReorderFits(h.t, src, dst);
    }
    return PermuteArguments(h, newType, reorder[..]);
  }

  /** One case of the argument switch of getBoundMethodHandle. */
  method ApplyArgBinding(s: FoldState, b: Binding) returns (r: Result<FoldState>)
    ensures r == ArgStep(s, b)
  {
    if b.Dup? {
      var merged := MergeArguments(s.h, s.insertPos - 1, s.insertPos);
      if merged.Err? {
        return Err(merged.error);
      }
      return Ok(FoldState(merged.value, s.insertPos - 1, s.copies));
    }
    return ArgStep(s, b);
  }

  /** The inner loop over one parameter's bindings, from the last to the first. */
  method FoldBindings(s: FoldState, bs: seq<Binding>) returns (r: Result<FoldState>)
    ensures r == FoldParam(s, bs)
  {
    var cur := s;
    var j := |bs| - 1;
    assert bs[..j + 1] == bs;
    while j >= 0
      invariant -1 <= j < |bs|
      invariant FoldParam(s, bs) == FoldParam(cur, bs[..j + 1])
    {
      assert bs[..j + 1][..j] == bs[..j];
      var next := ApplyArgBinding(cur, bs[j]);
      if next.Err? {
        return Err(next.error);
      }
      cur := next.value;
      j := j - 1;
    }
    assert bs[..0] == [];
    return Ok(cur);
  }

  /** One case of the return switch of getBoundMethodHandle. */
  method ApplyReturnBinding(rf: Handle, b: Binding) returns (r: Result<Handle>)
    ensures r == RetStep(rf, b)
  {
    if b.Dup? {
      r := MergeArguments(rf, 0, |rf.t.params| - 2);
      return;
    }
    return RetStep(rf, b);
  }

  /** The loop over the return bindings, from the last to the first. */
  method FoldReturnBindings(rf: Handle, bs: seq<Binding>) returns (r: Result<Handle>)
    ensures r == FoldRet(rf, bs)
  {
    var cur := rf;
    var j := |bs| - 1;
    assert bs[..j + 1] == bs;
    while j >= 0
      invariant -1 <= j < |bs|
      invariant FoldRet(rf, bs) == FoldRet(cur, bs[..j + 1])
    {
      assert bs[..j + 1][..j] == bs[..j];
      var next := ApplyReturnBinding(cur, bs[j]);
      if next.Err? {
        return Err(next.error);
      }
      cur := next.value;
      j := j - 1;
    }
    assert bs[..0] == [];
    return Ok(cur);
  }

  // ---- the invoker ----

  class ProgrammableInvoker {
    const abi: ABIDescriptor
    const layout: BufferLayout
    const stubAddress: int
    const addr: int
    const callingSequence: CallingSequence
    /** The bytes of stack area a call reserves. */
    const stackArgsBytes: nat

    /**
     * The constructor: the adapter stub is looked up in (or added to) the shared
     * cache, with `generated` standing for what the stub generator returns, and the
     * stack area is sized from the argument MOVE steps on the stack.
     */
    constructor(abi: ABIDescriptor, layout: BufferLayout, addr: int, callingSequence: CallingSequence,
                cache: StubCache, generated: int)
      modifies cache
      ensures this.abi == abi && this.layout == layout && this.addr == addr && this.callingSequence == callingSequence
      ensures (stubAddress, cache.stubs) == StubLookup(old(cache.stubs), abi, generated)
      ensures stackArgsBytes == StackArgsBytes(abi.arch, callingSequence)
    {
      this.abi := abi;
      this.layout := layout;
      var stub := cache.ComputeIfAbsent(abi, generated);
      this.stubAddress := stub;
      this.addr := addr;
      this.callingSequence := callingSequence;
      this.stackArgsBytes := StackArgsBytes(abi.arch, callingSequence);
    }

    /**
     * getBoundMethodHandle(): the handle the linker hands out, built by folding the
     * bindings around the raw native call, exactly as Bound specifies.
     */
    method GetBoundMethodHandle(oldInvoker: bool) returns (r: Result<Handle>)
      requires WellFormed(callingSequence)
      ensures r == Bound(oldInvoker, callingSequence)
    {
      var cs := callingSequence;
      if oldInvoker || |RetMoves(cs)| > 1 {
        return Ok(FallbackHandle(cs));
      }
      var intrinsicType := IntrinsicType(cs);
      var init := FoldState(Plain(Native, intrinsicType), -1, 0);
      var st := init;
      for i := 0 to |cs.methodType.params|
        invariant FoldArgs(init, cs.argBindings) == FoldArgs(st, cs.argBindings[i..])
      {
        assert cs.argBindings[i..][1..] == cs.argBindings[i + 1..];
        var next := FoldBindings(st, cs.argBindings[i]);
        if next.Err? {
          return Err(next.error);
        }
        st := next.value;
      }
      assert FoldArgs(init, cs.argBindings) == Ok(st);
      var h := st.h;
      if cs.methodType.ret != Void {
        var returnFilter := FoldReturnBindings(Identity(cs.methodType.ret).value, cs.returnBindings);
        if returnFilter.Err? {
          return Err(returnFilter.error);
        }
        var filtered := FilterReturnValue(h, returnFilter.value);
        if filtered.Err? {
          return Err(filtered.error);
        }
        h := filtered.value;
      }
      assert Chain(cs) == Ok((st, h));
      if st.copies > 0 {
        var closer := Closer(intrinsicType.ret, h.t.ret);
        if closer.Err? {
          return Err(closer.error);
        }
        return TryFinally(h, closer.value);
      }
      return Ok(h);
    }

    /** Where a MOVE to `s` writes: the stack area at index times slot size, or the register's place in the buffer. */
    function SlotOf(argBuffer: nat, stackSeg: Option<nat>, s: VMStorage): Addr
    {
      if IsStackType(abi.arch, s.stype) then
        var offset := s.index * abi.arch.stackSlotSize;
        if stackSeg.Some? then At(stackSeg.value, offset) else Raw(offset)
      else At(argBuffer, layout.argOffset(s))
    }

    /** The writes of invokeSpec's argument loop: argument i goes where its MOVE says. */
    function MoveStores(moves: seq<Binding>, argBuffer: nat, stackSeg: Option<nat>): (r: seq<Store>)
      requires AllMoves(moves)
      ensures |r| == |moves|
    {
      seq(|moves|, i requires 0 <= i < |moves| => Store(SlotOf(argBuffer, stackSeg, moves[i].storage), moves[i].ty, ArgValue(i)))
    }

    /**
     * invoke(args), the generic path: an argument buffer, a stack area when stack
     * space is needed, the header, then each argument unboxed (its copy steps
     * allocating buffers) until the one numbered `failAt`, if any, throws.
     * `boxed` stands for the value boxed from the return registers. The argument
     * buffer, the stack area and every copy are closed on every path.
     */
    method Invoke(arena: Arena, args: seq<int>, failAt: Option<nat>, boxed: int) returns (r: Result<Option<int>>, header: seq<Store>)
      requires WellFormed(callingSequence) && |args| == |callingSequence.argBindings|
      modifies arena
      ensures r == if failAt.Some? && failAt.value < |args| then Err(ForeignException)
                   else Ok(if callingSequence.functionDesc.returnLayout.None? then None else Some(boxed))
      ensures Released(old(arena.live), arena.live,
                       1 + (if stackArgsBytes > 0 then 1 else 0)
                       + Count(Flatten(callingSequence.argBindings[..Reached(failAt, |args|)]), COPY_BUFFER))
      ensures header == Header(layout, old(|arena.live|), if stackArgsBytes > 0 then Some(old(|arena.live|) + 1) else None,
                               addr, stackArgsBytes)
    {
      var base := |arena.live|;
      var argBuffer, stackSeg := OpenCallBuffers(arena, stackArgsBytes);
      var tempBuffers: seq<nat> := if stackSeg.Some? then [stackSeg.value] else [];
      header := Header(layout, argBuffer, stackSeg, addr, stackArgsBytes);
      ghost var before := arena.live;
      var failed;
      failed, tempBuffers := UnboxArguments(arena, callingSequence.argBindings, failAt, tempBuffers);
      RangeAppend(base + 1, |before|, |arena.live|);
      OpenFromTrans(old(arena.live), before, arena.live, base, |before|);
      Release(arena, old(arena.live), argBuffer, tempBuffers);
      if failed {
        r := Err(ForeignException);
      } else {
        r := Ok(if callingSequence.functionDesc.returnLayout.None? then None else Some(boxed));
      }
    }

    /**
     * invokeSpec(args, argBindings, returnBinding), the raw native call's fallback:
     * the header, then each argument written where its MOVE says, then the return
     * register read back (null when there is no return MOVE). The argument buffer
     * and the stack area are closed on every path.
     */
    method InvokeSpec(arena: Arena, args: seq<int>, argBindings: seq<Binding>, returnBinding: Option<Binding>)
      returns (r: Option<Read>, stores: seq<Store>)
      requires |args| == |argBindings| && AllMoves(argBindings)
      requires returnBinding.Some? ==> returnBinding.value.Move?
      modifies arena
      ensures r == if returnBinding.None? then None
                   else Some(Read(At(old(|arena.live|), layout.retOffset(returnBinding.value.storage)), returnBinding.value.ty))
      ensures var stackSeg := if stackArgsBytes > 0 then Some(old(|arena.live|) + 1) else None;
              stores == Header(layout, old(|arena.live|), stackSeg, addr, stackArgsBytes)
                        + MoveStores(argBindings, old(|arena.live|), stackSeg)
      ensures Released(old(arena.live), arena.live, 1 + (if stackArgsBytes > 0 then 1 else 0))
    {
      var argBuffer, stackSeg := OpenCallBuffers(arena, stackArgsBytes);
      stores := Header(layout, argBuffer, stackSeg, addr, stackArgsBytes);
      for i := 0 to |argBindings|
        invariant stores == Header(layout, argBuffer, stackSeg, addr, stackArgsBytes) + MoveStores(argBindings, argBuffer, stackSeg)[..i]
      {
        var binding := argBindings[i];
        stores := stores + [Store(SlotOf(argBuffer, stackSeg, binding.storage), binding.ty, ArgValue(i))];
      }
      assert MoveStores(argBindings, argBuffer, stackSeg)[..|argBindings|] == MoveStores(argBindings, argBuffer, stackSeg);
      if returnBinding.None? {
        r := None;
      } else {
        r := Some(Read(At(argBuffer, layout.retOffset(returnBinding.value.storage)), returnBinding.value.ty));
      }
      Release(arena, old(arena.live), argBuffer, if stackSeg.Some? then [stackSeg.value] else []);
    }
  }

  /**
   * invokeSpec never writes through NULL: when the MOVE steps are the calling
   * sequence's own and stack slots have a size, every argument bound for the stack
   * finds a stack area, at its index times the slot size.
   */
  lemma NoWriteThroughNull(inv: ProgrammableInvoker, argBuffer: nat)
    requires inv.abi.arch.stackSlotSize > 0
    requires inv.stackArgsBytes == StackArgsBytes(inv.abi.arch, inv.callingSequence)
    ensures var moves := MoveBindings(inv.callingSequence);
            var stackSeg := if inv.stackArgsBytes > 0 then Some(argBuffer + 1) else None;
            forall i :: 0 <= i < |moves| ==>
              inv.SlotOf(argBuffer, stackSeg, moves[i].storage).At?
              && (IsStackType(inv.abi.arch, moves[i].storage.stype) ==>
                    inv.SlotOf(argBuffer, stackSeg, moves[i].storage) == At(argBuffer + 1, moves[i].storage.index * inv.abi.arch.stackSlotSize))
  {
    var cs := inv.callingSequence;
    var moves := MoveBindings(cs);
    forall i | 0 <= i < |moves| && IsStackType(inv.abi.arch, moves[i].storage.stype)
      ensures inv.stackArgsBytes > 0
    {
      assert moves[i] in moves;
      assert moves[i] in Flatten(cs.argBindings);
      var p :| 0 <= p < |cs.argBindings| && moves[i] in cs.argBindings[p];
      StackArgsBytesPositive(inv.abi.arch, cs);
    }
  }

  /**
   * The generic path allocates per call exactly the copies the fast path counts:
   * when no argument fails, invoke opens one copy buffer for each COPY_BUFFER step
   * the bound handle's fold tallied.
   */
  lemma CopiesAgree(cs: CallingSequence)
    requires FoldArgs(FoldState(Plain(Native, IntrinsicType(cs)), -1, 0), cs.argBindings).Ok?
    ensures FoldArgs(FoldState(Plain(Native, IntrinsicType(cs)), -1, 0), cs.argBindings).value.copies
            == Count(Flatten(cs.argBindings[..Reached(None, |cs.argBindings|)]), COPY_BUFFER)
  {
    assert cs.argBindings[..|cs.argBindings|] == cs.argBindings;
  }

  // ---- the bound handle's captured buffer list ----

  /**
   * One call of a bound handle with copies, as written: the handle captured one
   * list when it was built, each call's copies are added to it, and the cleanup
   * closes the whole list. Yields the cleanup's exception, the segments and the list.
   */
  function BoundCallAsWritten(live: seq<bool>, captured: seq<nat>, copies: nat): (r: (Option<Exception>, seq<bool>, seq<nat>))
    requires forall k :: 0 <= k < |captured| ==> captured[k] < |live|
    ensures |r.1| == |live| + copies && r.2 == captured + Range(|live|, |live| + copies)
  {
    var live1 := live + seq(copies, _ => true);
    var list := captured + Range(|live|, |live1|);
    var (e, live2) := CloseAll(live1, list);
    (e, live2, list)
  }

  /** One call with a list of its own: only this call's copies are closed. */
  function BoundCall(live: seq<bool>, copies: nat): (r: (Option<Exception>, seq<bool>))
    ensures |r.1| == |live| + copies
  {
    var live1 := live + seq(copies, _ => true);
    CloseAll(live1, Range(|live|, |live1|))
  }

  /**
   * As written, the second call of a bound handle with copies fails: the captured
   * list still holds the first call's buffers, closing the first of them again
   * throws IllegalStateException, and the second call's own copies stay open.
   */
  lemma SecondCallFailsAsWritten(live: seq<bool>, copies: nat)
    requires copies > 0
    ensures var (e1, live1, list1) := BoundCallAsWritten(live, [], copies);
            e1.None?
            && var (e2, live2, list2) := BoundCallAsWritten(live1, list1, copies);
               e2 == Some(IllegalStateException)
               && forall k :: |live1| <= k < |live2| ==> live2[k]
  {
    var live0 := live + seq(copies, _ => true);
    var ids := Range(|live|, |live0|);
    assert [] + ids == ids;
    CloseOpenSucceeds(live0, ids);
    var (e1, live1, list1) := BoundCallAsWritten(live, [], copies);
    var live3 := live1 + seq(copies, _ => true);
    assert !live3[list1[0]];
  }

  /**
   * With a list per call, every call succeeds and closes all it opened, so a
   * handle can be called any number of times.
   */
  lemma BoundCallReleases(live: seq<bool>, copies: nat)
    ensures BoundCall(live, copies).0.None?
    ensures Released(live, BoundCall(live, copies).1, copies)
  {
    var live1 := live + seq(copies, _ => true);
    var ids := Range(|live|, |live1|);
    CloseOpenSucceeds(live1, ids);
    var after := BoundCall(live, copies).1;
    forall k | |live| <= k < |after|
      ensures !after[k]
    {
      assert ids[k - |live|] == k;
    }
    assert after[..|live|] == live;
  }

  /** A bound handle that captured a buffer list when it was built. */
  class CapturedBuffers {
    var tempBuffers: seq<nat>

    constructor()
      ensures tempBuffers == []
    {
      tempBuffers := [];
    }

    /** A call as written: copies go to the captured list, and closeBuffers closes the whole list. */
    method CallAsWritten(arena: Arena, copies: nat) returns (err: Option<Exception>)
      requires forall k :: 0 <= k < |tempBuffers| ==> tempBuffers[k] < |arena.live|
      modifies this, arena
      ensures (err, arena.live, tempBuffers) == BoundCallAsWritten(old(arena.live), old(tempBuffers), copies)
    {
      tempBuffers := CopyBuffers(arena, copies, tempBuffers);
      err := CloseBuffers(arena, tempBuffers);
    }
  }

  /** A call with a list of its own, created empty for the call. */
  method CallBound(arena: Arena, copies: nat) returns (err: Option<Exception>)
    modifies arena
    ensures (err, arena.live) == BoundCall(old(arena.live), copies)
  {
    var buffers := CopyBuffers(arena, copies, []);
    assert buffers == Range(old(|arena.live|), |arena.live|);
    err := CloseBuffers(arena, buffers);
  }
}
