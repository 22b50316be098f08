/**
 * The binding recipe of a foreign call: storage locations of the calling
 * convention, the seven binding steps, and the calling sequence that holds one
 * list of steps per parameter and one for the return value. CallingSequence,
 * VMStorage and ABIDescriptor are not part of this model's source; they are given
 * here as the plain data their uses require.
 */
module Bindings {
  import opened JavaTypes
  import opened Layouts

  /** A storage location: its storage class (register kind or stack) and its index in that class. */
  datatype VMStorage = VMStorage(stype: int, index: int)

  /** The architecture of an ABI: which storage class is the stack, and the byte size of a stack slot. */
  datatype Architecture = Architecture(stackType: int, stackSlotSize: nat)

  /** abi.arch.isStackType(t) */
  predicate IsStackType(arch: Architecture, t: int)
  {
    t == arch.stackType
  }

  /** An ABI descriptor: its architecture, and a name that tells descriptors apart. */
  datatype ABIDescriptor = ABIDescriptor(arch: Architecture, name: string)

  /** One step of a recipe, moving a value between its Java and its native form. */
  datatype Binding =
    | Move(storage: VMStorage, ty: JClass)
    | Dup
    | ConvertAddress
    | BaseAddress
    | Dereference(offset: int, ty: JClass)
    | Copy(size: int, alignment: int)
    | Allocate(size: int, alignment: int)

  /** Binding.tag() */
  datatype Tag = MOVE | DUP | CONVERT_ADDRESS | BASE_ADDRESS | DEREFERENCE | COPY_BUFFER | ALLOC_BUFFER

  function TagOf(b: Binding): Tag
  {
    match b
    case Move(_, _) => MOVE
    case Dup => DUP
    case ConvertAddress => CONVERT_ADDRESS
    case BaseAddress => BASE_ADDRESS
    case Dereference(_, _) => DEREFERENCE
    case Copy(_, _) => COPY_BUFFER
    case Allocate(_, _) => ALLOC_BUFFER
  }

  /** The number of bindings with tag `t`. */
  function Count(bs: seq<Binding>, t: Tag): (n: nat)
    ensures n <= |bs|
    ensures n > 0 <==> exists b :: b in bs && TagOf(b) == t
  {
    if bs == [] then 0
    else Count(bs[..|bs| - 1], t) + (if TagOf(bs[|bs| - 1]) == t then 1 else 0)
  }

  /** Counting over a concatenation adds up. */
  lemma {:induction false} CountAppend(a: seq<Binding>, b: seq<Binding>, t: Tag)
    ensures Count(a + b, t) == Count(a, t) + Count(b, t)
    decreases |b|
  {
    if b != [] {
      assert (a + b)[..|a + b| - 1] == a + b[..|b| - 1];
      CountAppend(a, b[..|b| - 1], t);
    } else {
      assert a + b == a;
    }
  }

  /** A calling sequence: the Java method type, the native descriptor and the two sides of the recipe. */
  datatype CallingSequence = CallingSequence(
    methodType: MethodType,
    functionDesc: FunctionDescriptor,
    argBindings: seq<seq<Binding>>,
    returnBindings: seq<Binding>)

  /** The classifier builds one binding list per parameter of the method type. */
  predicate WellFormed(cs: CallingSequence)
  {
    |cs.argBindings| == |cs.methodType.params|
  }

  /** The argument bindings of every parameter, in order. */
  function Flatten(bss: seq<seq<Binding>>): (r: seq<Binding>)
    ensures forall i, b :: 0 <= i < |bss| && b in bss[i] ==> b in r
    ensures forall b :: b in r ==> exists i :: 0 <= i < |bss| && b in bss[i]
  {
    if bss == [] then [] else bss[0] + Flatten(bss[1..])
  }

  /** The MOVE steps among `bs`, in order. */
  function Moves(bs: seq<Binding>): (r: seq<Binding>)
    ensures |r| == Count(bs, MOVE)
    ensures forall b :: b in r <==> b in bs && b.Move?
  {
    if bs == [] then []
    else Moves(bs[..|bs| - 1]) + (if bs[|bs| - 1].Move? then [bs[|bs| - 1]] else [])
  }

  /** callingSequence.moveBindings(): the argument MOVE steps of every parameter, in order. */
  function MoveBindings(cs: CallingSequence): (r: seq<Binding>)
    ensures |r| == Count(Flatten(cs.argBindings), MOVE)
  {
    Moves(Flatten(cs.argBindings))
  }

  /** The classes the MOVE steps `ms` carry. */
  function MoveTypes(ms: seq<Binding>): (r: seq<JClass>)
    requires forall b :: b in ms ==> b.Move?
    ensures |r| == |ms| && forall i :: 0 <= i < |ms| ==> r[i] == ms[i].ty
  {
    if ms == [] then [] else [ms[0].ty] + MoveTypes(ms[1..])
  }

  /** The MOVE steps among the return bindings. */
  function RetMoves(cs: CallingSequence): seq<Binding>
  {
    Moves(cs.returnBindings)
  }

  /** The number of MOVE steps in `ms` whose storage is on the stack. */
  function StackMoves(arch: Architecture, ms: seq<Binding>): (n: nat)
    requires forall b :: b in ms ==> b.Move?
    ensures n <= |ms|
    ensures n > 0 <==> exists b :: b in ms && IsStackType(arch, b.storage.stype)
  {
    if ms == [] then 0
    else (if IsStackType(arch, ms[0].storage.stype) then 1 else 0) + StackMoves(arch, ms[1..])
  }

  /**
   * The constructor's stackArgsBytes: the number of argument MOVE steps whose
   * storage is on the stack, times the stack slot size.
   */
  function StackArgsBytes(arch: Architecture, cs: CallingSequence): nat
  {
    StackMoves(arch, MoveBindings(cs)) * arch.stackSlotSize
  }

  /** With a non-zero slot size, stack space is reserved exactly when some argument is moved to the stack. */
  lemma StackArgsBytesPositive(arch: Architecture, cs: CallingSequence)
    requires arch.stackSlotSize > 0
    ensures StackArgsBytes(arch, cs) > 0 <==>
              exists i, b :: 0 <= i < |cs.argBindings| && b in cs.argBindings[i] && b.Move? && IsStackType(arch, b.storage.stype)
  {
    var ms := MoveBindings(cs);
    if StackArgsBytes(arch, cs) > 0 {
      var b :| b in ms && IsStackType(arch, b.storage.stype);
      assert b in Flatten(cs.argBindings);
    }
  }
}
