/**
 * VarargsInvoker: calling a variadic C function through a method handle whose last
 * parameter collects the variadic arguments into an Object[].
 *
 * At each call the invoker derives, from the run-time classes of the variadic
 * arguments, a fixed-arity method type and function descriptor for exactly this
 * call, and flattens the arguments to match. The downcall itself is foreign and is
 * represented by the request the invoker would make.
 */
module VarargsInvoker {
  import opened Wrappers
  import opened JavaTypes
  import opened Layouts

  /** An argument passed as an Object: null, or an instance of some class. */
  datatype JObject = Null | Obj(cls: JClass, payload: int)

  /** The invoker's final fields: the native symbol, the declared type, the declared descriptor. */
  datatype Invoker = Invoker(symbol: nat, varargs: MethodType, descriptor: FunctionDescriptor)

  /** What the invoker asks of the system ABI and then calls: a handle of type `mt` for `fd`, applied to `args`. */
  datatype Downcall = Downcall(symbol: nat, mt: MethodType, fd: FunctionDescriptor, args: seq<JObject>)

  // ---- boxing ----

  /** The nine wrapper classes of java.lang. */
  predicate IsWrapper(c: JClass)
  {
    c.BoxedVoid? || c.BoxedBoolean? || c.BoxedByte? || c.BoxedChar? || c.BoxedShort?
    || c.BoxedInteger? || c.BoxedLong? || c.BoxedFloat? || c.BoxedDouble?
  }

  /** The wrapper class of a primitive class. */
  function Box(p: JClass): (r: JClass)
    requires IsPrimitive(p)
    ensures IsWrapper(r)
  {
    match p
    case Void => BoxedVoid
    case Boolean => BoxedBoolean
    case Byte => BoxedByte
    case Char => BoxedChar
    case Short => BoxedShort
    case Int => BoxedInteger
    case Long => BoxedLong
    case Float => BoxedFloat
    case Double => BoxedDouble
  }

  /** unboxIfNeeded(clazz): a wrapper class becomes its primitive, every other class stays. */
  function UnboxIfNeeded(c: JClass): (r: JClass)
    ensures IsWrapper(c) ==> IsPrimitive(r) && Box(r) == c
    ensures !IsWrapper(c) ==> r == c
  {
    match c
    case BoxedBoolean => Boolean
    case BoxedVoid => Void
    case BoxedByte => Byte
    case BoxedChar => Char
    case BoxedShort => Short
    case BoxedInteger => Int
    case BoxedLong => Long
    case BoxedFloat => Float
    case BoxedDouble => Double
    case _ => c
  }

  /** Unboxing undoes boxing, for each of the nine primitive classes. */
  lemma UnboxBox(p: JClass)
    requires IsPrimitive(p)
    ensures UnboxIfNeeded(Box(p)) == p
  {
  }

  /** Unboxing twice is unboxing once. */
  lemma UnboxIdempotent(c: JClass)
    ensures UnboxIfNeeded(UnboxIfNeeded(c)) == UnboxIfNeeded(c)
  {
  }

  // ---- regulate ----

  /** The classes a variadic argument may be passed as. */
  predicate IsCarrier(c: JClass)
  {
    IsPrimitive(c) || c.MemoryAddress? || c.MemorySegment?
  }

  /**
   * regulate(c): after unboxing, a primitive class stays, an address class becomes
   * MemoryAddress, a segment class MemorySegment, and anything else is refused.
   */
  function Regulate(c: JClass): (r: Result<JClass>)
    ensures r.Ok? <==> IsPrimitive(UnboxIfNeeded(c)) || IsAddress(c) || IsSegment(c)
    ensures r.Ok? ==> IsCarrier(r.value)
    ensures r.Ok? && IsPrimitive(UnboxIfNeeded(c)) ==> r.value == UnboxIfNeeded(c)
    ensures IsAddress(c) ==> r == Ok(MemoryAddress)
    ensures IsSegment(c) ==> r == Ok(MemorySegment)
    ensures r.Err? ==> r.error == IllegalArgumentException
  {
    var u := UnboxIfNeeded(c);
    if IsPrimitive(u) then Ok(u)
    else if IsAddress(u) then Ok(MemoryAddress)
    else if IsSegment(u) then Ok(MemorySegment)
    else Err(IllegalArgumentException)
  }

  /** A regulated class regulates to itself. */
  lemma RegulateIdempotent(c: JClass)
    requires Regulate(c).Ok?
    ensures Regulate(Regulate(c).value) == Regulate(c)
  {
  }

  // ---- variadicLayout ----

  /**
   * variadicLayout(c): integral classes are passed as a C long, floating ones as a
   * C double, addresses as a C pointer; boolean, void and segments are refused.
   */
  function VariadicLayout(c: JClass): (r: Result<MemoryLayout>)
    ensures (c.Char? || c.Byte? || c.Short? || c.Int? || c.Long?) <==> r == Ok(C_LONG)
    ensures (c.Float? || c.Double?) <==> r == Ok(C_DOUBLE)
    ensures IsAddress(c) <==> r == Ok(C_POINTER)
    ensures r.Err? ==> r.error == IllegalArgumentException
  {
    if c.Char? || c.Byte? || c.Short? || c.Int? || c.Long? then Ok(C_LONG)
    else if c.Float? || c.Double? then Ok(C_DOUBLE)
    else if IsAddress(c) then Ok(C_POINTER)
    else Err(IllegalArgumentException)
  }

  /**
   * After regulating, exactly the boxed booleans and voids and the segments are
   * refused a variadic layout (besides what regulate already refuses).
   */
  lemma RegulatedLayout(c: JClass)
    requires Regulate(c).Ok?
    ensures VariadicLayout(Regulate(c).value).Err? <==>
              (UnboxIfNeeded(c).Boolean? || UnboxIfNeeded(c).Void? || IsSegment(c))
  {
  }

  // ---- invoke ----

  /** The class and layout one variadic argument is passed with, or what `invoke` throws for it. */
  function Classify(o: JObject): Result<(JClass, MemoryLayout)>
  {
    if o.Null? then Err(NullPointerException)
    else
      var c :- Regulate(o.cls);
      var l :- VariadicLayout(c);
      Ok((c, l))
  }

  /**
   * A well-formed invoker: its type takes the named parameters and then the
   * collecting Object[], so a call hands over one argument per named parameter
   * besides the variadic ones.
   */
  predicate WellFormed(inv: Invoker)
  {
    |inv.varargs.params| == |inv.descriptor.argumentLayouts| + 1
  }

  /**
   * invoke(args), up to the downcall: the named arguments keep their declared
   * classes and layouts, each variadic argument takes the class and layout
   * Classify gives it, and the first variadic argument that cannot be classified
   * decides the exception.
   */
  method Invoke(inv: Invoker, named: seq<JObject>, unnamed: seq<JObject>) returns (r: Result<Downcall>)
    requires WellFormed(inv) && |named| == |inv.descriptor.argumentLayouts|
    ensures r.Ok? <==> forall i :: 0 <= i < |unnamed| ==> Classify(unnamed[i]).Ok?
    ensures r.Err? ==> exists i :: 0 <= i < |unnamed| && Classify(unnamed[i]) == Err(r.error)
                                   && forall j :: 0 <= j < i ==> Classify(unnamed[j]).Ok?
    ensures r.Ok? ==> Correct(inv, named, unnamed, r.value)
  {
    var nNamedArgs := |inv.descriptor.argumentLayouts|;
    var argsCount := nNamedArgs + |unnamed|;
    var argTypes := new JClass[argsCount](_ => ObjectClass);
    var argLayouts := new MemoryLayout[argsCount](_ => C_LONG);
    FillNamed(argTypes, argLayouts, inv);
    var err := FillVariadic(argTypes, argLayouts, nNamedArgs, unnamed);
    if err.Some? {
      return Err(err.value);
    }
    var types, layouts := argTypes[..], argLayouts[..];
    var mt := MethodType(inv.varargs.ret, types);
    var f := if inv.descriptor.returnLayout.None? then FunctionDescriptor(None, layouts)
             else FunctionDescriptor(Some(inv.descriptor.returnLayout.value), layouts);
    var allArgs := Flatten(named, unnamed);
    var d := Downcall(inv.symbol, mt, f, allArgs);
    DowncallCorrect(inv, named, unnamed, d);
    r := Ok(d);
  }

  /** The loop over the named parameters: their declared classes and layouts. */
  method FillNamed(argTypes: array<JClass>, argLayouts: array<MemoryLayout>, inv: Invoker)
    requires WellFormed(inv)
    requires |inv.descriptor.argumentLayouts| <= argTypes.Length && |inv.descriptor.argumentLayouts| <= argLayouts.Length
    modifies argTypes, argLayouts
    ensures forall k :: 0 <= k < |inv.descriptor.argumentLayouts| ==>
              argTypes[k] == inv.varargs.params[k] && argLayouts[k] == inv.descriptor.argumentLayouts[k]
  {
    var pos := 0;
    while pos < |inv.descriptor.argumentLayouts|
      invariant 0 <= pos <= |inv.descriptor.argumentLayouts|
      invariant forall k :: 0 <= k < pos ==> argTypes[k] == inv.varargs.params[k]
      invariant forall k :: 0 <= k < pos ==> argLayouts[k] == inv.descriptor.argumentLayouts[k]
    {
      argTypes[pos] := inv.varargs.params[pos];
      argLayouts[pos] := inv.descriptor.argumentLayouts[pos];
      pos := pos + 1;
    }
  }

  /**
   * The loop over the variadic arguments: from position `n` on, each argument's
   * class and layout, stopping at the first argument that has none.
   */
  method FillVariadic(argTypes: array<JClass>, argLayouts: array<MemoryLayout>, n: nat, unnamed: seq<JObject>)
    returns (err: Option<Exception>)
    requires argTypes.Length == argLayouts.Length == n + |unnamed|
    modifies argTypes, argLayouts
    ensures forall k :: 0 <= k < n ==> argTypes[k] == old(argTypes[k]) && argLayouts[k] == old(argLayouts[k])
    ensures err.None? <==> forall i :: 0 <= i < |unnamed| ==> Classify(unnamed[i]).Ok?
    ensures err.Some? ==> exists i :: 0 <= i < |unnamed| && Classify(unnamed[i]) == Err(err.value)
                                     && forall j :: 0 <= j < i ==> Classify(unnamed[j]).Ok?
    ensures err.None? ==> forall j :: 0 <= j < |unnamed| ==> (argTypes[n + j], argLayouts[n + j]) == Classify(unnamed[j]).value
  {
    var pos := n;
    for i := 0 to |unnamed|
      invariant pos == n + i
      invariant forall k :: 0 <= k < n ==> argTypes[k] == old(argTypes[k]) && argLayouts[k] == old(argLayouts[k])
      invariant forall j :: 0 <= j < i ==> Classify(unnamed[j]).Ok?
      invariant forall j :: 0 <= j < i ==> (argTypes[n + j], argLayouts[n + j]) == Classify(unnamed[j]).value
    {
      var o := unnamed[i];
      if o.Null? {
        return Some(NullPointerException);
      }
      var c := Regulate(o.cls);
      if c.Err? {
        return Some(c.error);
      }
      argTypes[pos] := c.value;
      var l := VariadicLayout(argTypes[pos]);
      if l.Err? {
        return Some(l.error);
      }
      argLayouts[pos] := l.value;
      pos := pos + 1;
    }
    err := None;
  }

  /** The two array copies: the named arguments, then the variadic ones. */
  method Flatten(named: seq<JObject>, unnamed: seq<JObject>) returns (allArgs: seq<JObject>)
    ensures allArgs == named + unnamed
  {
    var a := new JObject[|named| + |unnamed|](_ => Null);
    forall k | 0 <= k < |named| {
      a[k] := named[k];
    }
    forall k | |named| <= k < a.Length {
      a[k] := unnamed[k - |named|];
    }
    allArgs := a[..];
  }

  /**
   * What a successful call hands to the downcall: the declared return class and
   * return layout, the named parameters' declared classes and layouts followed by
   * the variadic arguments' derived ones, and the arguments flattened in order.
   */
  ghost predicate Correct(inv: Invoker, named: seq<JObject>, unnamed: seq<JObject>, d: Downcall)
    requires WellFormed(inv)
  {
    var n := |inv.descriptor.argumentLayouts|;
    d.symbol == inv.symbol
    && d.mt.ret == inv.varargs.ret
    && d.fd.returnLayout == inv.descriptor.returnLayout
    && |d.mt.params| == |d.fd.argumentLayouts| == |d.args| == n + |unnamed|
    && d.mt.params[..n] == inv.varargs.params[..n]
    && d.fd.argumentLayouts[..n] == inv.descriptor.argumentLayouts
    && (forall j :: 0 <= j < |unnamed| ==>
          (Classify(unnamed[j]).Ok? && (d.mt.params[n + j], d.fd.argumentLayouts[n + j]) == Classify(unnamed[j]).value))
    && d.args == named + unnamed
  }

  /** The downcall built from the filled arrays is the one Correct describes. */
  lemma DowncallCorrect(inv: Invoker, named: seq<JObject>, unnamed: seq<JObject>, d: Downcall)
    requires WellFormed(inv)
    requires var n := |inv.descriptor.argumentLayouts|;
             d.symbol == inv.symbol && d.mt.ret == inv.varargs.ret && d.fd.returnLayout == inv.descriptor.returnLayout
             && |d.mt.params| == |d.fd.argumentLayouts| == n + |unnamed| && d.args == named + unnamed
             && (forall k :: 0 <= k < n ==> d.mt.params[k] == inv.varargs.params[k] && d.fd.argumentLayouts[k] == inv.descriptor.argumentLayouts[k])
             && (forall i :: 0 <= i < |unnamed| ==> Classify(unnamed[i]).Ok?)
             && (forall j :: 0 <= j < |unnamed| ==> (d.mt.params[n + j], d.fd.argumentLayouts[n + j]) == Classify(unnamed[j]).value)
    requires |named| == |inv.descriptor.argumentLayouts|
    ensures Correct(inv, named, unnamed, d)
  {
    var n := |inv.descriptor.argumentLayouts|;
    assert d.mt.params[..n] == inv.varargs.params[..n];
    assert d.fd.argumentLayouts[..n] == inv.descriptor.argumentLayouts;
  }

  /** A variadic argument of a boxed class is passed as its primitive's variadic layout. */
  lemma BoxedArgument(p: JClass, payload: int)
    requires IsPrimitive(p) && !p.Boolean? && !p.Void?
    ensures Classify(Obj(Box(p), payload)).Ok?
    ensures Classify(Obj(Box(p), payload)).value.0 == p
    ensures Classify(Obj(Box(p), payload)).value.1 == if p.Float? || p.Double? then C_DOUBLE else C_LONG
  {
    UnboxBox(p);
  }
}
