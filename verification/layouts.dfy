/** jdk.incubator.foreign memory layouts, as values. */
module Layouts {
  import opened Wrappers

  datatype MemoryLayout =
    /** a scalar; `abiClass` is the ABI classification attribute a C layout carries */
    | ValueLayout(bitSize: nat, bigEndian: bool, bitAlignment: nat, abiClass: string, name: Option<string>)
    /** `count` is absent for a sequence of unknown length */
    | SequenceLayout(count: Option<nat>, element: MemoryLayout, name: Option<string>)
    /**
     * `complexLongDouble` is the identity of the object CSupport.SysV.C_COMPLEX_LONGDOUBLE:
     * it is true of that object only, never of a group merely equal to it
     */
    | GroupLayout(isStruct: bool, members: seq<MemoryLayout>, name: Option<string>, complexLongDouble: bool := false)
    | PaddingLayout(bitSize: nat, name: Option<string>)

  /** MemoryLayout.bitSize(): a sequence of unknown length has no size and throws. */
  function BitSize(l: MemoryLayout): (r: Result<nat>)
    ensures r.Err? ==> r.error == UnsupportedOperationException
    decreases l
  {
    match l
    case ValueLayout(n, _, _, _, _) => Ok(n)
    case PaddingLayout(n, _) => Ok(n)
    case SequenceLayout(c, e, _) =>
      if c.None? then Err(UnsupportedOperationException)
      else var es :- BitSize(e); Ok(c.value * es)
    case GroupLayout(isStruct, ms, _, _) => GroupBits(isStruct, ms)
  }

  /** The size of a struct is the sum of its members', that of a union the largest. */
  function GroupBits(isStruct: bool, ms: seq<MemoryLayout>): (r: Result<nat>)
    ensures r.Err? ==> r.error == UnsupportedOperationException
    decreases ms
  {
    if ms == [] then Ok(0)
    else
      var a :- BitSize(ms[0]);
      var b :- GroupBits(isStruct, ms[1..]);
      Ok(if isStruct then a + b else if a > b then a else b)
  }

  datatype FunctionDescriptor = FunctionDescriptor(returnLayout: Option<MemoryLayout>, argumentLayouts: seq<MemoryLayout>)

  /** The C layouts of the x86-64 System V ABI that the modelled code names. */
  const C_LONG: MemoryLayout := ValueLayout(64, false, 64, "INTEGER", None)
  const C_DOUBLE: MemoryLayout := ValueLayout(64, false, 64, "SSE", None)
  const C_POINTER: MemoryLayout := ValueLayout(64, false, 64, "PTR", None)
}
