/**
 * ConstantHelper: the class of static getters the binder generator writes as bytecode.
 *
 * Each getter is a static method without parameters that pushes one constant and returns
 * it. Integer constants are pushed with the shortest instruction that holds them, and
 * everything else is loaded from the constant pool as a dynamic constant. Getters are
 * memoised by name: asking for a name a second time returns the first getter and writes
 * no second method.
 *
 * The bytecode is kept as instruction lists; a small operand-stack evaluator gives those
 * instructions their meaning, so that the choice of instruction can be checked against
 * the value it was asked to push.
 */
module ConstantHelper {
  import opened Wrappers
  import opened JavaTypes
  import opened JavaInts
  import opened Layouts
  import LayoutUtils
  import Clang
  import Decimal

  // ---- JVM opcodes (the values ASM's Opcodes interface gives them) ----

  const ICONST_M1: int := 2
  const ICONST_0: int := 3
  const ICONST_5: int := 8
  const LCONST_0: int := 9
  const LCONST_1: int := 10
  const BIPUSH: int := 16
  const SIPUSH: int := 17
  const I2L: int := 133
  const IRETURN: int := 172
  const LRETURN: int := 173
  const FRETURN: int := 174
  const DRETURN: int := 175
  const ARETURN: int := 176
  const RETURN: int := 177

  predicate InByte(x: int) { -128 <= x <= 127 }

  predicate InShort(x: int) { -32768 <= x <= 32767 }

  // ---- constant descriptors ----

  /** The kind of a direct method handle. */
  datatype HandleKind = Static | InterfaceStatic | InterfaceVirtual

  /** The constants a getter can load (java.lang.constant.ConstantDesc). */
  datatype ConstantDesc =
    | IntegerDesc(i: int)
    | LongDesc(l: int)
    /** a float or double constant, by its decimal text */
    | FloatDesc(f: string)
    | DoubleDesc(d: string)
    | StringDesc(s: string)
    | ClassDescOf(c: JClass)
    /**
     * the string `mt.descriptorString()`, kept as the method type it is made from;
     * the descriptor syntax is not modelled
     */
    | MethodTypeDescOf(mt: MethodType)
    | LayoutDesc(layout: MemoryLayout)
    | FunctionDesc(fd: FunctionDescriptor)
    /** a direct method handle: kind, owner class, method name */
    | Handle(kind: HandleKind, owner: string, methodName: string)
    /** a dynamic constant: bootstrap method, constant name, constant type, bootstrap arguments */
    | Dynamic(bootstrap: string, name: string, ctype: string, args: seq<ConstantDesc>)

  const BSM_INVOKE := "invoke"
  const BSM_GET_STATIC_FINAL := "getStaticFinal"
  const CD_VarHandle := "java.lang.invoke.VarHandle"
  const CD_MethodHandle := "java.lang.invoke.MethodHandle"
  const CD_PathElement := "jdk.incubator.foreign.MemoryLayout$PathElement"
  const CD_MemoryAddress := "jdk.incubator.foreign.MemoryAddress"
  const CD_MemorySegment := "jdk.incubator.foreign.MemorySegment"
  const CD_Libraries := "[Ljdk.incubator.foreign.LibraryLookup;"
  const CD_Boolean := "java.lang.Boolean"

  const MH_MemoryLayout_varHandle := Handle(InterfaceVirtual, "jdk.incubator.foreign.MemoryLayout", "varHandle")
  const MH_MemoryHandles_asAddressVarHandle := Handle(Static, "jdk.incubator.foreign.MemoryHandles", "asAddressVarHandle")
  const MH_PathElement_groupElement := Handle(InterfaceStatic, CD_PathElement, "groupElement")
  const MH_PathElement_sequenceElement := Handle(InterfaceStatic, CD_PathElement, "sequenceElement")
  const MH_MemoryAddress_ofLong := Handle(InterfaceStatic, CD_MemoryAddress, "ofLong")
  const MH_MemorySegment_baseAddress := Handle(InterfaceVirtual, CD_MemorySegment, "baseAddress")
  const MH_downcallHandle := Handle(Static, "jdk.incubator.jbind.core.RuntimeHelper", "downcallHandle")
  const MH_lookupGlobalVariable := Handle(Static, "jdk.incubator.jbind.core.RuntimeHelper", "lookupGlobalVariable")
  const MH_libraries := Handle(Static, "jdk.incubator.jbind.core.RuntimeHelper", "libraries")
  const MH_makeCString := Handle(Static, "jdk.incubator.foreign.CLinker", "toCString")

  const TRUE := Dynamic(BSM_GET_STATIC_FINAL, "TRUE", CD_Boolean, [ClassDescOf(BoxedBoolean)])
  const FALSE := Dynamic(BSM_GET_STATIC_FINAL, "FALSE", CD_Boolean, [ClassDescOf(BoxedBoolean)])
  const SEQUENCE_ELEMENT := Dynamic(BSM_INVOKE, "sequenceElement", CD_PathElement, [MH_PathElement_sequenceElement])

  /** librariesDesc: the handle to RuntimeHelper.libraries followed by the library names. */
  function LibrariesDesc(libraryNames: seq<string>): (r: ConstantDesc)
    ensures r.Dynamic? && |r.args| == |libraryNames| + 1 && r.args[0] == MH_libraries
    ensures forall i :: 0 <= i < |libraryNames| ==> r.args[i + 1] == StringDesc(libraryNames[i])
  {
    Dynamic(BSM_INVOKE, "libraries", CD_Libraries,
      [MH_libraries] + seq(|libraryNames|, i requires 0 <= i < |libraryNames| => StringDesc(libraryNames[i])))
  }

  /** groupElementDesc(fieldName) */
  function GroupElementDesc(fieldName: string): ConstantDesc
  {
    Dynamic(BSM_INVOKE, "groupElement_" + fieldName, CD_PathElement, [MH_PathElement_groupElement, StringDesc(fieldName)])
  }

  /** addressDesc(value) */
  function AddressDesc(value: int): ConstantDesc
  {
    Dynamic(BSM_INVOKE, "MA_" + Decimal.IntToString(value), CD_MemoryAddress, [MH_MemoryAddress_ofLong, LongDesc(value)])
  }

  /** cStringDesc(value): the base address of a native copy of the string. */
  function CStringDesc(value: string): ConstantDesc
  {
    Dynamic(BSM_INVOKE, "BASEADDRESS", CD_MemoryAddress, [MH_MemorySegment_baseAddress,
      Dynamic(BSM_INVOKE, "CSTRING", CD_MemorySegment, [MH_makeCString, StringDesc(value)])])
  }

  // ---- the operand-stack evaluator ----

  /** A value on the operand stack. */
  datatype Value = IntV(i: int) | LongV(l: int) | FloatV(f: string) | DoubleV(d: string) | RefV(r: ConstantDesc)

  /** The instructions a getter is made of: visitInsn, visitIntInsn and visitLdcInsn. */
  datatype Insn = Insn(opcode: int) | IntInsn(opcode: int, operand: int) | LdcInsn(cst: ConstantDesc)

  /** What running a method body comes to. */
  datatype Outcome = FellOff(stack: seq<Value>) | Returned(result: Option<Value>) | Stuck

  /** The class file keeps a bipush operand as one signed byte. */
  function ByteOperand(x: int): int
  {
    var m := x % 256;
    if m >= 128 then m - 256 else m
  }

  /** The class file keeps a sipush operand as two bytes, signed. */
  function ShortOperand(x: int): int
  {
    var m := x % 65536;
    if m >= 32768 then m - 65536 else m
  }

  /** The value ldc pushes: primitive constants as primitives, everything else as a reference. */
  function LdcValue(c: ConstantDesc): Value
  {
    match c
    case IntegerDesc(i) => IntV(ToInt(i))
    case LongDesc(l) => LongV(ToLong(l))
    case FloatDesc(f) => FloatV(f)
    case DoubleDesc(d) => DoubleV(d)
    case _ => RefV(c)
  }

  predicate IsReturn(op: int) { IRETURN <= op <= RETURN }

  /** One instruction other than a return; None when it cannot run on this stack. */
  function Step(ins: Insn, st: seq<Value>): Option<seq<Value>>
  {
    match ins
    case Insn(op) =>
      if ICONST_M1 <= op <= ICONST_5 then Some(st + [IntV(op - ICONST_0)])
      else if op == LCONST_0 || op == LCONST_1 then Some(st + [LongV(op - LCONST_0)])
      else if op == I2L && st != [] && st[|st| - 1].IntV? then Some(st[..|st| - 1] + [LongV(st[|st| - 1].i)])
      else None
    case IntInsn(op, x) =>
      if op == BIPUSH then Some(st + [IntV(ByteOperand(x))])
      else if op == SIPUSH then Some(st + [IntV(ShortOperand(x))])
      else None
    case LdcInsn(c) => Some(st + [LdcValue(c)])
  }

  /** A return instruction: it takes the top of the stack, which must be of its kind. */
  function Return(op: int, st: seq<Value>): Outcome
  {
    if op == RETURN then Returned(None)
    else if st == [] then Stuck
    else
      var top := st[|st| - 1];
      if (op == IRETURN && top.IntV?) || (op == LRETURN && top.LongV?) || (op == FRETURN && top.FloatV?)
         || (op == DRETURN && top.DoubleV?) || (op == ARETURN && top.RefV?)
      then Returned(Some(top))
      else Stuck
  }

  /** Runs instructions from the first on. */
  function Run(code: seq<Insn>, st: seq<Value>): Outcome
  {
    if code == [] then FellOff(st)
    else if code[0].Insn? && IsReturn(code[0].opcode) then Return(code[0].opcode, st)
    else match Step(code[0], st)
         case Some(st') => Run(code[1..], st')
         case None => Stuck
  }

  /** Running two pieces of code one after the other. */
  lemma {:induction false} RunAppend(a: seq<Insn>, b: seq<Insn>, st: seq<Value>)
    ensures Run(a + b, st) == (match Run(a, st) case FellOff(st') => Run(b, st') case o => o)
  {
    if a == [] {
      assert a + b == b;
    } else {
      assert (a + b)[0] == a[0] && (a + b)[1..] == a[1..] + b;
      match Step(a[0], st)
      case Some(st') => RunAppend(a[1..], b, st');
      case None =>
    }
  }

  /** Code that leaves exactly the value v on an empty stack, without returning. */
  predicate Pushes(code: seq<Insn>, v: Value)
  {
    Run(code, []) == FellOff([v])
  }

  /** Code that reads the constant pool. */
  predicate UsesPool(code: seq<Insn>)
  {
    exists i :: 0 <= i < |code| && code[i].LdcInsn?
  }

  /** The bytes an instruction takes in the code array, for instructions that do not read the constant pool. */
  function CodeBytes(ins: Insn): nat
  {
    match ins
    case Insn(_) => 1
    case IntInsn(op, _) => if op == BIPUSH then 2 else 3
    case LdcInsn(_) => 2
  }

  // ---- instruction selection ----

  /** The ICONST instruction of a value in -1..5. */
  function IConstOpcode(v: int): int
    requires -1 <= v <= 5
  {
    if v == -1 then ICONST_M1
    else if v == 0 then 3
    else if v == 1 then 4
    else if v == 2 then 5
    else if v == 3 then 6
    else if v == 4 then 7
    else 8
  }

  /** emitConShort(value) */
  function EmitConShort(v: int): (r: seq<Insn>)
    requires InShort(v)
    ensures |r| == 1 && !UsesPool(r)
  {
    if -1 <= v <= 5 then [Insn(IConstOpcode(v))]
    else if InByte(v) then [IntInsn(BIPUSH, v)]
    else [IntInsn(SIPUSH, v)]
  }

  /** emitConInt(value) */
  function EmitConInt(v: int): (r: seq<Insn>)
    requires InInt(v)
    ensures |r| == 1
    ensures UsesPool(r) <==> !InShort(v)
  {
    if InShort(v) then EmitConShort(v)
    else
      var r := [LdcInsn(IntegerDesc(v))];
      assert r[0].LdcInsn?;
      r
  }

  /**
   * emitConLong(value). A value in int range is pushed as an int and widened, which
   * spares a long entry in the constant pool.
   */
  function EmitConLong(v: int): (r: seq<Insn>)
    ensures UsesPool(r) <==> !InShort(v)
    ensures r == [LdcInsn(LongDesc(v))] <==> !InInt(v)
  {
    if v == 0 then [Insn(LCONST_0)]
    else if v == 1 then [Insn(LCONST_1)]
    else if InInt(v) then
      var r := EmitConInt(v) + [Insn(I2L)];
      assert r[0] == EmitConInt(v)[0] && r[1] == Insn(I2L) && |r| == 2;
      assert UsesPool(r) <==> r[0].LdcInsn?;
      r
    else
      var r := [LdcInsn(LongDesc(v))];
      assert r[0].LdcInsn?;
      r
  }

  /** The kind of value a method of the class returns. */
  datatype Kind = IntKind | LongKind | FloatKind | DoubleKind | VoidKind | RefKind

  function KindOf(c: JClass): Kind
  {
    if c.Int? || c.Short? || c.Byte? || c.Char? || c.Boolean? then IntKind
    else if c.Long? then LongKind
    else if c.Float? then FloatKind
    else if c.Double? then DoubleKind
    else if c.Void? then VoidKind
    else RefKind
  }

  function ValueKind(v: Value): Kind
  {
    match v
    case IntV(_) => IntKind
    case LongV(_) => LongKind
    case FloatV(_) => FloatKind
    case DoubleV(_) => DoubleKind
    case RefV(_) => RefKind
  }

  /**
   * emitReturn(type). Every class that is not primitive is assignable to Object, so the
   * IllegalArgumentException at the end is never thrown.
   */
  function EmitReturn(c: JClass): (r: Result<Insn>)
    ensures r.Ok? && r.value.Insn? && IsReturn(r.value.opcode)
  {
    if c.Int? || c.Short? || c.Byte? || c.Char? || c.Boolean? then Ok(Insn(IRETURN))
    else if c.Long? then Ok(Insn(LRETURN))
    else if c.Float? then Ok(Insn(FRETURN))
    else if c.Double? then Ok(Insn(DRETURN))
    else if c.Void? then Ok(Insn(RETURN))
    else if !IsPrimitive(c) then Ok(Insn(ARETURN))
    else Err(IllegalArgumentException)
  }

  /** The return instruction of a class returns exactly the values of the class's kind. */
  lemma EmitReturnAccepts(c: JClass, st: seq<Value>, v: Value)
    requires !c.Void?
    ensures Run([EmitReturn(c).value], st + [v]) == (if ValueKind(v) == KindOf(c) then Returned(Some(v)) else Stuck)
  {
    assert (st + [v])[|st + [v]| - 1] == v;
  }

  /** A void method returns nothing, whatever is on the stack. */
  lemma EmitReturnVoid(st: seq<Value>)
    ensures Run([EmitReturn(Void).value], st) == Returned(None)
  {
  }

  // ---- the instruction choice pushes the constant it was given ----

  lemma EmitConShortPushes(v: int)
    requires InShort(v)
    ensures Pushes(EmitConShort(v), IntV(v))
  {
    var code := EmitConShort(v);
    assert code[1..] == [];
    if -1 <= v <= 5 {
      assert IConstOpcode(v) - ICONST_0 == v;
    }
  }

  lemma EmitConIntPushes(v: int)
    requires InInt(v)
    ensures Pushes(EmitConInt(v), IntV(v))
  {
    if InShort(v) {
      EmitConShortPushes(v);
    } else {
      assert EmitConInt(v)[1..] == [];
    }
  }

  lemma EmitConLongPushes(v: int)
    requires InLong(v)
    ensures Pushes(EmitConLong(v), LongV(v))
  {
    var code := EmitConLong(v);
    if v == 0 || v == 1 || !InInt(v) {
      assert code[1..] == [];
    } else {
      EmitConIntPushes(v);
      RunAppend(EmitConInt(v), [Insn(I2L)], []);
      assert [IntV(v)][..0] + [LongV(v)] == [LongV(v)];
    }
  }

  /** No single instruction that leaves the constant pool alone pushes v in fewer bytes than emitConShort's. */
  lemma EmitConShortSmallest(v: int, ins: Insn)
    requires InShort(v) && !ins.LdcInsn? && Pushes([ins], IntV(v))
    ensures CodeBytes(EmitConShort(v)[0]) <= CodeBytes(ins)
  {
    assert [ins][0] == ins && [ins][1..] == [];
    assert !(ins.Insn? && IsReturn(ins.opcode)) ==>
      Run([ins], []) == (match Step(ins, []) case Some(s) => Run([], s) case None => Stuck);
    assert ins.Insn? && IsReturn(ins.opcode) ==> Run([ins], []) == Return(ins.opcode, []);
    match ins
    case Insn(op) =>
      assert Step(ins, []) == Some([IntV(v)]);
      assert [] + [IntV(op - ICONST_0)] == [IntV(op - ICONST_0)];
      assert [] + [LongV(op - LCONST_0)] == [LongV(op - LCONST_0)];
      assert ICONST_M1 <= op <= ICONST_5 && v == op - ICONST_0;
    case IntInsn(op, x) =>
      assert Step(ins, []) == Some([IntV(v)]);
      if op == BIPUSH {
        assert [] + [IntV(ByteOperand(x))] == [IntV(ByteOperand(x))];
        assert v == ByteOperand(x);
        assert CodeBytes(ins) == 2;
      } else {
        assert CodeBytes(ins) == 3;
      }
  }

  /** The body of a getter followed by the return of its class returns what the body pushed. */
  lemma GetterReturns(c: JClass, body: seq<Insn>, v: Value)
    requires Pushes(body, v) && ValueKind(v) == KindOf(c) && !c.Void?
    ensures Run(body + [EmitReturn(c).value], []) == Returned(Some(v))
  {
    RunAppend(body, [EmitReturn(c).value], []);
    EmitReturnAccepts(c, [], v);
    assert [] + [v] == [v];
  }

  // ---- dynamic constants for var handles ----

  /** A step of a layout path. */
  datatype PathElement = GroupElement(name: string) | SequenceElement

  function PathElementDesc(p: PathElement): ConstantDesc
  {
    match p
    case GroupElement(n) => GroupElementDesc(n)
    case SequenceElement => SEQUENCE_ELEMENT
  }

  function PathDescs(ps: seq<PathElement>): (r: seq<ConstantDesc>)
    ensures |r| == |ps|
  {
    seq(|ps|, i requires 0 <= i < |ps| => PathElementDesc(ps[i]))
  }

  function Repeat<T>(x: T, n: nat): (r: seq<T>)
    ensures |r| == n && forall i :: 0 <= i < n ==> r[i] == x
  {
    if n == 0 then [] else Repeat(x, n - 1) + [x]
  }

  /**
   * MemoryLayout.select along a path: a group element is the first member with that
   * name, a sequence element the element layout; None where the path does not fit.
   */
  function Select(l: MemoryLayout, path: seq<PathElement>): Option<MemoryLayout>
    decreases |path|
  {
    if path == [] then Some(l)
    else match path[0]
         case GroupElement(n) =>
           if !l.GroupLayout? then None
           else (match LayoutUtils.FirstNamed(l.members, n)
                 case Some(m) => Select(m, path[1..])
                 case None => None)
         case SequenceElement =>
           if l.SequenceLayout? then Select(l.element, path[1..]) else None
  }

  /** The path varHandleDesc builds: the field's name, if any, then one step into each nested sequence. */
  function VarHandlePath(nativeName: string, layout: MemoryLayout, isField: bool): seq<PathElement>
  {
    (if isField then [GroupElement(nativeName)] else []) + Repeat(SequenceElement, LayoutUtils.Depth(layout))
  }

  /** The constant a var handle getter loads (see VarHandleDesc). */
  function VarHandleConstant(javaName: string, nativeName: string, layout: MemoryLayout, typ: JClass,
                             parentLayout: Option<MemoryLayout>): ConstantDesc
  {
    var carrier := if IsAddress(typ) then JClass.Long else typ;
    var root := if parentLayout.Some? then parentLayout.value else layout;
    var vh := Dynamic(BSM_INVOKE, "VH_" + javaName, CD_VarHandle,
                [MH_MemoryLayout_varHandle, LayoutDesc(root), ClassDescOf(carrier)]
                + PathDescs(VarHandlePath(nativeName, layout, parentLayout.Some?)));
    if IsAddress(typ) then Dynamic(BSM_INVOKE, "ASADDRVH", CD_VarHandle, [MH_MemoryHandles_asAddressVarHandle, vh])
    else vh
  }

  /**
   * varHandleDesc(javaName, nativeName, layout, type, parentLayout); `None` is a null
   * parent layout. An address carrier is read as a long and the handle is then wrapped
   * in asAddressVarHandle.
   */
  method VarHandleDesc(javaName: string, nativeName: string, layout: MemoryLayout, typ: JClass,
                       parentLayout: Option<MemoryLayout>) returns (rv: ConstantDesc)
    ensures var carrier := if IsAddress(typ) then JClass.Long else typ;
            var root := if parentLayout.Some? then parentLayout.value else layout;
            var vh := Dynamic(BSM_INVOKE, "VH_" + javaName, CD_VarHandle,
                        [MH_MemoryLayout_varHandle, LayoutDesc(root), ClassDescOf(carrier)]
                        + PathDescs(VarHandlePath(nativeName, layout, parentLayout.Some?)));
            rv == if IsAddress(typ) then Dynamic(BSM_INVOKE, "ASADDRVH", CD_VarHandle, [MH_MemoryHandles_asAddressVarHandle, vh])
                  else vh
    ensures rv == VarHandleConstant(javaName, nativeName, layout, typ, parentLayout)
  {
    var isAddr := IsAddress(typ);
    var carrier := typ;
    if isAddr {
      carrier := JClass.Long;
    }
    var root := layout;
    if parentLayout.Some? {
      root := parentLayout.value;
    }
    var args := VarHandleArgs(nativeName, layout, root, carrier, parentLayout.Some?);
    rv := Dynamic(BSM_INVOKE, "VH_" + javaName, CD_VarHandle, args);
    if isAddr {
      rv := Dynamic(BSM_INVOKE, "ASADDRVH", CD_VarHandle, [MH_MemoryHandles_asAddressVarHandle, rv]);
    }
  }

  /** The bootstrap arguments of a var handle: the root layout, the carrier and the path to the element. */
  method VarHandleArgs(nativeName: string, layout: MemoryLayout, root: MemoryLayout, carrier: JClass, isField: bool)
    returns (args: seq<ConstantDesc>)
    ensures args == [MH_MemoryLayout_varHandle, LayoutDesc(root), ClassDescOf(carrier)]
                    + PathDescs(VarHandlePath(nativeName, layout, isField))
  {
    args := [MH_MemoryLayout_varHandle, LayoutDesc(root), ClassDescOf(carrier)];
    ghost var fieldPath: seq<PathElement> := [];
    if isField {
      args := args + [GroupElementDesc(nativeName)];
      fieldPath := [GroupElement(nativeName)];
    }
    ghost var prefix := args;
    assert prefix[3..] == PathDescs(fieldPath);
    var l := layout;
    ghost var n: nat := 0;
    while l.SequenceLayout?
      invariant n + LayoutUtils.Depth(l) == LayoutUtils.Depth(layout)
      invariant args == prefix + PathDescs(Repeat(SequenceElement, n))
      decreases l
    {
      args := args + [SEQUENCE_ELEMENT];
      l := l.element;
      n := n + 1;
      assert Repeat(SequenceElement, n) == Repeat(SequenceElement, n - 1) + [SequenceElement];
    }
    PathDescsAppend(fieldPath, Repeat(SequenceElement, n));
  }

  lemma PathDescsAppend(a: seq<PathElement>, b: seq<PathElement>)
    ensures PathDescs(a + b) == PathDescs(a) + PathDescs(b)
  {
  }

  /** Stepping into every nested sequence reaches the innermost element. */
  lemma {:induction false} SelectSequences(l: MemoryLayout)
    ensures Select(l, Repeat(SequenceElement, LayoutUtils.Depth(l))) == Some(LayoutUtils.Innermost(l))
    decreases l
  {
    var path := Repeat(SequenceElement, LayoutUtils.Depth(l));
    if l.SequenceLayout? {
      SelectSequences(l.element);
      assert path[0] == SequenceElement;
      RepeatTail(SequenceElement, LayoutUtils.Depth(l));
    }
  }

  lemma RepeatTail<T>(x: T, n: nat)
    requires n > 0
    ensures Repeat(x, n)[1..] == Repeat(x, n - 1)
  {
  }

  /**
   * The path of the var handle leads from its root layout to the innermost element of
   * the layout, given what varHandleDesc asserts of a field: the parent is a group whose
   * member of that name is the layout.
   */
  lemma VarHandlePathResolves(nativeName: string, layout: MemoryLayout, parentLayout: Option<MemoryLayout>)
    requires parentLayout.Some? ==> parentLayout.value.GroupLayout?
                                    && LayoutUtils.FirstNamed(parentLayout.value.members, nativeName) == Some(layout)
    ensures var root := if parentLayout.Some? then parentLayout.value else layout;
            Select(root, VarHandlePath(nativeName, layout, parentLayout.Some?)) == Some(LayoutUtils.Innermost(layout))
  {
    SelectSequences(layout);
    if parentLayout.Some? {
      var path := VarHandlePath(nativeName, layout, true);
      assert path[0] == GroupElement(nativeName);
      assert path[1..] == Repeat(SequenceElement, LayoutUtils.Depth(layout));
    } else {
      assert VarHandlePath(nativeName, layout, false) == Repeat(SequenceElement, LayoutUtils.Depth(layout));
    }
  }

  /** methodHandleDesc(name, mtype, funcDesc, varargs); the method type is passed as its descriptor string */
  function MethodHandleDesc(libraries: ConstantDesc, name: string, mtype: MethodType, fd: FunctionDescriptor, varargs: bool): ConstantDesc
  {
    Dynamic(BSM_INVOKE, "MH_" + name, CD_MethodHandle,
      [MH_downcallHandle, libraries, StringDesc(name), MethodTypeDescOf(mtype), FunctionDesc(fd), if varargs then TRUE else FALSE])
  }

  /** globalVarAddressDesc(name, layout) */
  function GlobalVarAddressDesc(libraries: ConstantDesc, name: string, layout: MemoryLayout): ConstantDesc
  {
    Dynamic(BSM_INVOKE, "ADDR_" + name, CD_MemoryAddress, [MH_lookupGlobalVariable, libraries, StringDesc(name), LayoutDesc(layout)])
  }

  // ---- class names ----

  /** String.replace(a, b) on characters. */
  function ReplaceChar(s: string, a: char, b: char): (r: string)
    ensures |r| == |s| && forall i :: 0 <= i < |s| ==> r[i] == if s[i] == a then b else s[i]
  {
    seq(|s|, i requires 0 <= i < |s| => if s[i] == a then b else s[i])
  }

  /** ClassDesc.of(name).descriptorString(): `L`, the internal name, `;`. */
  function ClassDescriptor(binaryName: string): string
  {
    "L" + ReplaceChar(binaryName, '.', '/') + ";"
  }

  /** descriptorToInternalName(s): drops the first and the last character. */
  function DescriptorToInternalName(s: string): (r: Result<string>)
    ensures r.Ok? <==> |s| >= 2
    ensures r.Ok? ==> |r.value| == |s| - 2 && s == [s[0]] + r.value + [s[|s| - 1]]
    ensures r.Err? ==> r.error == IndexOutOfBoundsException
  {
    if |s| < 2 then Err(IndexOutOfBoundsException) else Ok(s[1..|s| - 1])
  }

  /** The internal name of a class is read back from its descriptor. */
  lemma InternalNameRoundTrip(binaryName: string)
    ensures DescriptorToInternalName(ClassDescriptor(binaryName)) == Ok(ReplaceChar(binaryName, '.', '/'))
  {
    var d := ClassDescriptor(binaryName);
    assert d[1..|d| - 1] == ReplaceChar(binaryName, '.', '/');
  }

  // ---- the helper class ----

  /** A DirectMethodHandleDesc for a static getter of the helper class. */
  datatype Getter = Getter(owner: string, name: string, ret: JClass)

  /** A method written to the class: its name, return class and code. */
  datatype GetterMethod = GetterMethod(name: string, ret: JClass, code: seq<Insn>)

  /** The class file build() returns: its internal name and its methods in the order written. */
  datatype ClassFile = ClassFile(internalName: string, methods: seq<GetterMethod>)

  function Names(ms: seq<GetterMethod>): seq<string>
  {
    seq(|ms|, i requires 0 <= i < |ms| => ms[i].name)
  }

  /** The layout's own class, as layout.getClass() gives it. */
  function LayoutClass(l: MemoryLayout): JClass
  {
    match l
    case ValueLayout(_, _, _, _, _) => OtherClass("jdk.incubator.foreign.ValueLayout")
    case SequenceLayout(_, _, _) => OtherClass("jdk.incubator.foreign.SequenceLayout")
    case GroupLayout(_, _, _, _) => OtherClass("jdk.incubator.foreign.GroupLayout")
    case PaddingLayout(_, _) => OtherClass("jdk.incubator.foreign.PaddingLayout")
  }

  /** The class of a constant's value: Long, Double or String. */
  function ValueClass(v: Clang.ConstValue): JClass
  {
    match v
    case LongValue(_) => BoxedLong
    case DoubleValue(_) => BoxedDouble
    case StringValue(_) => StringClass
  }

  /** The constant a value that needs no conversion describes itself as. */
  function ValueDesc(v: Clang.ConstValue): ConstantDesc
  {
    match v
    case LongValue(x) => LongDesc(x)
    case DoubleValue(d) => DoubleDesc(d)
    case StringValue(s) => StringDesc(s)
  }

  /**
   * The getters in the pool are those of the written methods: one method per name, each
   * getter owned by the helper class and returning its method's class, and each method
   * ending in the return of that class.
   */
  ghost predicate PoolMatches(owner: string, pool: map<string, Getter>, methods: seq<GetterMethod>)
  {
    && (forall i, j :: 0 <= i < j < |methods| ==> methods[i].name != methods[j].name)
    && (forall n :: n in pool ==> pool[n].owner == owner && pool[n].name == n && n in Names(methods))
    && (forall i :: 0 <= i < |methods| ==>
          && methods[i].name in pool
          && pool[methods[i].name].ret == methods[i].ret
          && |methods[i].code| > 0
          && methods[i].code[|methods[i].code| - 1] == EmitReturn(methods[i].ret).value)
  }

  /** Writing a method under a new name, and pooling its getter, keeps the two in step. */
  lemma PoolMatchesAdd(owner: string, pool: map<string, Getter>, methods: seq<GetterMethod>, m: GetterMethod)
    requires PoolMatches(owner, pool, methods) && m.name !in pool
    requires |m.code| > 0 && m.code[|m.code| - 1] == EmitReturn(m.ret).value
    ensures PoolMatches(owner, pool[m.name := Getter(owner, m.name, m.ret)], methods + [m])
  {
    var pool', methods' := pool[m.name := Getter(owner, m.name, m.ret)], methods + [m];
    assert Names(methods') == Names(methods) + [m.name];
    forall i, j | 0 <= i < j < |methods'|
      ensures methods'[i].name != methods'[j].name
    {
      if j == |methods| {
        assert methods[i].name in pool;
      }
    }
    forall n | n in pool'
      ensures pool'[n].owner == owner && pool'[n].name == n && n in Names(methods')
    {
      if n != m.name {
        assert n in Names(methods);
      }
    }
    forall i | 0 <= i < |methods'|
      ensures methods'[i].name in pool' && pool'[methods'[i].name].ret == methods'[i].ret
    {
      if i < |methods| {
        assert methods'[i] == methods[i] && methods[i].name in pool;
      }
    }
  }

  class ConstantHelper {
    /** the binary name of the class written: the parent class's name with `$constants` */
    const className: string
    const internalClassName: string
    const libraries: ConstantDesc
    /** getters already written, by name */
    var pool: map<string, Getter>
    /** the methods written so far, in order */
    var methods: seq<GetterMethod>
    /** false once build() has handed the class over (the writer is then null) */
    var open: bool

    /** The pool and the written methods describe the same getters, one method per name. */
    ghost predicate Valid()
      reads this
    {
      PoolMatches(className, pool, methods)
    }

    constructor (parentClassName: string, libraryNames: seq<string>)
      ensures className == parentClassName + "$constants"
      ensures internalClassName == ReplaceChar(className, '.', '/')
      ensures libraries == LibrariesDesc(libraryNames)
      ensures pool == map[] && methods == [] && open
      ensures Valid()
    {
      className := parentClassName + "$constants";
      internalClassName := ReplaceChar(parentClassName + "$constants", '.', '/');
      libraries := LibrariesDesc(libraryNames);
      pool := map[];
      methods := [];
      open := true;
    }

    /**
     * emitGetter(name, type, action), with the instructions the action writes: a name
     * already in the pool gives its getter back and writes nothing; a new one writes a
     * method of the action's code and the return of its class.
     */
    method EmitGetter(name: string, typ: JClass, body: seq<Insn>) returns (r: Result<Getter>)
      requires Valid()
      modifies this
      ensures Valid() && open == old(open)
      ensures r.Ok? ==> r.value.name == name && name in pool
      ensures name in old(pool) ==> r == Ok(old(pool)[name]) && pool == old(pool) && methods == old(methods)
      ensures name !in old(pool) && !open ==> r == Err(NullPointerException) && pool == old(pool) && methods == old(methods)
      ensures name !in old(pool) && open ==>
                r == Ok(Getter(className, name, typ))
                && pool == old(pool)[name := r.value]
                && methods == old(methods) + [GetterMethod(name, typ, body + [EmitReturn(typ).value])]
    {
      if name in pool {
        return Ok(pool[name]);
      }
      if !open {
        return Err(NullPointerException);
      }
      var ret := EmitReturn(typ);
      var m := GetterMethod(name, typ, body + [ret.value]);
      var g := Getter(className, name, typ);
      PoolMatchesAdd(className, pool, methods, m);
      methods := methods + [m];
      pool := pool[name := g];
      r := Ok(g);
    }

    /** emitCondyGetter(name, type, desc): a getter that loads the constant from the pool. */
    method EmitCondyGetter(name: string, typ: JClass, desc: ConstantDesc) returns (r: Result<Getter>)
      requires Valid()
      modifies this
      ensures Valid() && open == old(open)
      ensures r.Ok? ==> r.value.name == name && name in pool
      ensures name in old(pool) ==> r == Ok(old(pool)[name]) && methods == old(methods)
      ensures name !in old(pool) && open ==>
                r == Ok(Getter(className, name, typ))
                && methods == old(methods) + [GetterMethod(name, typ, [LdcInsn(desc), EmitReturn(typ).value])]
      ensures name !in old(pool) && !open ==> r == Err(NullPointerException) && methods == old(methods)
    {
      assert [LdcInsn(desc)] + [EmitReturn(typ).value] == [LdcInsn(desc), EmitReturn(typ).value];
      r := EmitGetter(name, typ, [LdcInsn(desc)]);
    }

    /** addLayout(javaName, layout) */
    method AddLayout(javaName: string, layout: MemoryLayout) returns (r: Result<Getter>)
      requires Valid()
      modifies this
      ensures Valid()
      ensures r.Ok? ==> r.value.name == javaName + "$LAYOUT" && r.value.name in pool
      ensures javaName + "$LAYOUT" !in old(pool) && open ==>
                methods == old(methods) + [GetterMethod(javaName + "$LAYOUT", LayoutClass(layout),
                                                        [LdcInsn(LayoutDesc(layout)), Insn(ARETURN)])]
    {
      r := EmitCondyGetter(javaName + "$LAYOUT", LayoutClass(layout), LayoutDesc(layout));
    }

    /** addVarHandle(javaName, nativeName, layout, type, parentLayout) */
    method AddVarHandle(javaName: string, nativeName: string, layout: MemoryLayout, typ: JClass,
                        parentLayout: Option<MemoryLayout>) returns (r: Result<Getter>)
      requires Valid()
      modifies this
      ensures Valid()
      ensures r.Ok? ==> r.value.name == javaName + "$VH" && r.value.name in pool
      ensures javaName + "$VH" !in old(pool) && open ==> r == Ok(Getter(className, javaName + "$VH", OtherClass(CD_VarHandle)))
      ensures javaName + "$VH" !in old(pool) && open ==>
                methods == old(methods) + [GetterMethod(javaName + "$VH", OtherClass(CD_VarHandle),
                  [LdcInsn(VarHandleConstant(javaName, nativeName, layout, typ, parentLayout)), Insn(ARETURN)])]
      ensures javaName + "$VH" in old(pool) ==> methods == old(methods)
    {
      var desc := VarHandleDesc(javaName, nativeName, layout, typ, parentLayout);
      r := EmitCondyGetter(javaName + "$VH", OtherClass(CD_VarHandle), desc);
    }

    /** addMethodHandle(javaName, nativeName, mtype, desc, varargs) */
    method AddMethodHandle(javaName: string, nativeName: string, mtype: MethodType, fd: FunctionDescriptor,
                           varargs: bool) returns (r: Result<Getter>)
      requires Valid()
      modifies this
      ensures Valid()
      ensures r.Ok? ==> r.value.name == javaName + "$MH" && r.value.name in pool
      ensures javaName + "$MH" in old(pool) ==> methods == old(methods)
      ensures javaName + "$MH" !in old(pool) && open ==>
                methods == old(methods) + [GetterMethod(javaName + "$MH", OtherClass(CD_MethodHandle),
                  [LdcInsn(MethodHandleDesc(libraries, nativeName, mtype, fd, varargs)), Insn(ARETURN)])]
    {
      r := EmitCondyGetter(javaName + "$MH", OtherClass(CD_MethodHandle), MethodHandleDesc(libraries, nativeName, mtype, fd, varargs));
    }

    /** addAddress(javaName, nativeName, layout) */
    method AddAddress(javaName: string, nativeName: string, layout: MemoryLayout) returns (r: Result<Getter>)
      requires Valid()
      modifies this
      ensures Valid()
      ensures r.Ok? ==> r.value.name == javaName + "$ADDR" && r.value.name in pool
      ensures javaName + "$ADDR" in old(pool) ==> methods == old(methods)
      ensures javaName + "$ADDR" !in old(pool) && open ==>
                methods == old(methods) + [GetterMethod(javaName + "$ADDR", MemoryAddress,
                  [LdcInsn(GlobalVarAddressDesc(libraries, nativeName, layout)), Insn(ARETURN)])]
    {
      r := EmitCondyGetter(javaName + "$ADDR", MemoryAddress, GlobalVarAddressDesc(libraries, nativeName, layout));
    }

    /** addFunctionDesc(javaName, fDesc) */
    method AddFunctionDesc(javaName: string, fd: FunctionDescriptor) returns (r: Result<Getter>)
      requires Valid()
      modifies this
      ensures Valid()
      ensures r.Ok? ==> r.value.name == javaName + "$DESC" && r.value.name in pool
      ensures javaName + "$DESC" in old(pool) ==> methods == old(methods)
      ensures javaName + "$DESC" !in old(pool) && open ==>
                methods == old(methods) + [GetterMethod(javaName + "$DESC", OtherClass("jdk.incubator.foreign.FunctionDescriptor"),
                  [LdcInsn(FunctionDesc(fd)), Insn(ARETURN)])]
    {
      r := EmitCondyGetter(javaName + "$DESC", OtherClass("jdk.incubator.foreign.FunctionDescriptor"), FunctionDesc(fd));
    }

    /**
     * addConstant(name, type, value): `Ok(None)` is the skipped constant (a warning and a
     * null result). Float and double getters load the constant's text; the instruction
     * choice for them is not modelled.
     */
    method AddConstant(name: string, typ: JClass, value: Clang.ConstValue) returns (r: Result<Option<Getter>>)
      requires Valid()
      modifies this
      ensures Valid()
      ensures r == Err(IllegalStateException) <==>
                (typ == MemoryAddress && value.DoubleValue?) || typ == Boolean || typ == Void
      ensures r == Err(ClassCastException) <==>
                ((typ.Int? || typ.Byte? || typ.Short? || typ.Char? || typ.Long?) && !value.LongValue?)
                || ((typ.Float? || typ.Double?) && !value.DoubleValue?)
      ensures r == Ok(None) <==> typ != MemoryAddress && !IsPrimitive(typ) && typ != ValueClass(value)
      ensures r.Ok? && r.value.Some? ==> r.value.value.name == name && name in pool
      ensures name !in old(pool) && open && (typ.Int? || typ.Byte? || typ.Short? || typ.Char?) && value.LongValue? ==>
                methods == old(methods) + [GetterMethod(name, typ, EmitConInt(ToInt(value.v)) + [Insn(IRETURN)])]
      ensures name !in old(pool) && open && typ.Long? && value.LongValue? ==>
                methods == old(methods) + [GetterMethod(name, typ, EmitConLong(value.v) + [Insn(LRETURN)])]
      ensures name !in old(pool) && open && typ.Float? && value.DoubleValue? ==>
                methods == old(methods) + [GetterMethod(name, typ, [LdcInsn(FloatDesc(value.text)), Insn(FRETURN)])]
      ensures name !in old(pool) && open && typ.Double? && value.DoubleValue? ==>
                methods == old(methods) + [GetterMethod(name, typ, [LdcInsn(DoubleDesc(value.text)), Insn(DRETURN)])]
      ensures name !in old(pool) && open && typ == MemoryAddress && value.LongValue? ==>
                methods == old(methods) + [GetterMethod(name, typ, [LdcInsn(AddressDesc(value.v)), Insn(ARETURN)])]
      ensures name !in old(pool) && open && typ == MemoryAddress && value.StringValue? ==>
                methods == old(methods) + [GetterMethod(name, typ, [LdcInsn(CStringDesc(value.s)), Insn(ARETURN)])]
      ensures name !in old(pool) && open && typ != MemoryAddress && !IsPrimitive(typ) && typ == ValueClass(value) ==>
                methods == old(methods) + [GetterMethod(name, typ, [LdcInsn(ValueDesc(value)), Insn(ARETURN)])]
      ensures name in old(pool) || r.Err? || r == Ok(None) ==> methods == old(methods)
    {
      if typ == MemoryAddress {
        r := AddAddressConstant(name, value);
      } else if IsPrimitive(typ) {
        r := AddPrimitiveConstant(name, typ, value);
      } else if typ == ValueClass(value) {
        var g := EmitCondyGetter(name, typ, ValueDesc(value));
        r := Lift(g);
      } else {
        r := Ok(None);
      }
    }

    /** The MemoryAddress branch of addConstant: a long is an address, a string a C string. */
    method AddAddressConstant(name: string, value: Clang.ConstValue) returns (r: Result<Option<Getter>>)
      requires Valid()
      modifies this
      ensures Valid()
      ensures r == Err(IllegalStateException) <==> value.DoubleValue?
      ensures r != Err(ClassCastException) && r != Ok(None)
      ensures r.Ok? && r.value.Some? ==> r.value.value.name == name && name in pool
      ensures name !in old(pool) && open && value.LongValue? ==>
                methods == old(methods) + [GetterMethod(name, MemoryAddress, [LdcInsn(AddressDesc(value.v)), Insn(ARETURN)])]
      ensures name !in old(pool) && open && value.StringValue? ==>
                methods == old(methods) + [GetterMethod(name, MemoryAddress, [LdcInsn(CStringDesc(value.s)), Insn(ARETURN)])]
      ensures name in old(pool) || r.Err? ==> methods == old(methods)
    {
      match value {
        case LongValue(x) =>
          var g := EmitCondyGetter(name, MemoryAddress, AddressDesc(x));
          r := Lift(g);
        case StringValue(s) =>
          var g := EmitCondyGetter(name, MemoryAddress, CStringDesc(s));
          r := Lift(g);
        case DoubleValue(_) =>
          r := Err(IllegalStateException);
      }
    }

    /** The primitive branch of addConstant: the value must be of the class's kind. */
    method AddPrimitiveConstant(name: string, typ: JClass, value: Clang.ConstValue) returns (r: Result<Option<Getter>>)
      requires Valid() && IsPrimitive(typ)
      modifies this
      ensures Valid()
      ensures r == Err(IllegalStateException) <==> typ == Boolean || typ == Void
      ensures r == Err(ClassCastException) <==>
                ((typ.Int? || typ.Byte? || typ.Short? || typ.Char? || typ.Long?) && !value.LongValue?)
                || ((typ.Float? || typ.Double?) && !value.DoubleValue?)
      ensures r != Ok(None)
      ensures r.Ok? && r.value.Some? ==> r.value.value.name == name && name in pool
      ensures name !in old(pool) && open && (typ.Int? || typ.Byte? || typ.Short? || typ.Char?) && value.LongValue? ==>
                methods == old(methods) + [GetterMethod(name, typ, EmitConInt(ToInt(value.v)) + [Insn(IRETURN)])]
      ensures name !in old(pool) && open && typ.Long? && value.LongValue? ==>
                methods == old(methods) + [GetterMethod(name, typ, EmitConLong(value.v) + [Insn(LRETURN)])]
      ensures name !in old(pool) && open && typ.Float? && value.DoubleValue? ==>
                methods == old(methods) + [GetterMethod(name, typ, [LdcInsn(FloatDesc(value.text)), Insn(FRETURN)])]
      ensures name !in old(pool) && open && typ.Double? && value.DoubleValue? ==>
                methods == old(methods) + [GetterMethod(name, typ, [LdcInsn(DoubleDesc(value.text)), Insn(DRETURN)])]
      ensures name in old(pool) || r.Err? ==> methods == old(methods)
    {
      if typ.Int? || typ.Byte? || typ.Short? || typ.Char? {
        if !value.LongValue? {
          return Err(ClassCastException);
        }
        var g := EmitGetter(name, typ, EmitConInt(ToInt(value.v)));
        r := Lift(g);
      } else if typ.Float? {
        if !value.DoubleValue? {
          return Err(ClassCastException);
        }
        assert [LdcInsn(FloatDesc(value.text))] + [Insn(FRETURN)] == [LdcInsn(FloatDesc(value.text)), Insn(FRETURN)];
        var g := EmitGetter(name, typ, [LdcInsn(FloatDesc(value.text))]);
        r := Lift(g);
      } else if typ.Long? {
        if !value.LongValue? {
          return Err(ClassCastException);
        }
        var g := EmitGetter(name, typ, EmitConLong(value.v));
        r := Lift(g);
      } else if typ.Double? {
        if !value.DoubleValue? {
          return Err(ClassCastException);
        }
        assert [LdcInsn(DoubleDesc(value.text))] + [Insn(DRETURN)] == [LdcInsn(DoubleDesc(value.text)), Insn(DRETURN)];
        var g := EmitGetter(name, typ, [LdcInsn(DoubleDesc(value.text))]);
        r := Lift(g);
      } else {
        r := Err(IllegalStateException);
      }
    }

    /** build(): hands over the class; the writer is gone afterwards. */
    method Build() returns (r: Result<ClassFile>)
      requires Valid()
      modifies this
      ensures Valid() && !open && pool == old(pool) && methods == old(methods)
      ensures r.Ok? <==> old(open)
      ensures r.Ok? ==> r.value == ClassFile(internalClassName, methods)
      ensures r.Err? ==> r.error == NullPointerException
    {
      if !open {
        return Err(NullPointerException);
      }
      open := false;
      r := Ok(ClassFile(internalClassName, methods));
    }
  }

  /** A getter as addConstant returns it. */
  function Lift(g: Result<Getter>): (r: Result<Option<Getter>>)
    ensures g.Ok? <==> r.Ok? && r.value.Some?
    ensures g.Ok? ==> r.value.value == g.value
    ensures g.Err? ==> r == Err(g.error)
  {
    match g
    case Ok(x) => Ok(Some(x))
    case Err(e) => Err(e)
  }

  // ---- what the getters return ----

  /** An int, byte, short or char constant's getter returns the constant's low 32 bits. */
  lemma IntGetterReturns(c: JClass, x: int)
    requires c.Int? || c.Byte? || c.Short? || c.Char?
    ensures Run(EmitConInt(ToInt(x)) + [Insn(IRETURN)], []) == Returned(Some(IntV(ToInt(x))))
  {
    EmitConIntPushes(ToInt(x));
    GetterReturns(c, EmitConInt(ToInt(x)), IntV(ToInt(x)));
  }

  /** A long constant's getter returns the constant. */
  lemma LongGetterReturns(x: int)
    requires InLong(x)
    ensures Run(EmitConLong(x) + [Insn(LRETURN)], []) == Returned(Some(LongV(x)))
  {
    EmitConLongPushes(x);
    GetterReturns(JClass.Long, EmitConLong(x), LongV(x));
  }

  /** A getter that loads a dynamic constant returns it as a reference. */
  lemma CondyGetterReturns(c: JClass, d: ConstantDesc)
    requires !IsPrimitive(c) && d.Dynamic?
    ensures Run([LdcInsn(d), EmitReturn(c).value], []) == Returned(Some(RefV(d)))
  {
    assert Pushes([LdcInsn(d)], RefV(d)) by {
      assert [LdcInsn(d)][1..] == [];
    }
    GetterReturns(c, [LdcInsn(d)], RefV(d));
    assert [LdcInsn(d)] + [EmitReturn(c).value] == [LdcInsn(d), EmitReturn(c).value];
  }
}
