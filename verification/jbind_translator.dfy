/** Translating C types to the Java classes that carry them, as the binder generator does (jbind TypeTranslator). */
module JbindTypeTranslator {
  import opened Wrappers
  import opened JavaTypes
  import opened JavaInts
  import opened Layouts
  import opened Clang

  /** isFloatingPoint */
  predicate IsFloatingPoint(k: PrimKind)
  {
    k == PrimKind.Float || k == Float128 || k == HalfFloat || k == PrimKind.Double || k == LongDouble
  }

  /** typeToLayoutName: the C layout constant named after a primitive kind. */
  function TypeToLayoutName(k: PrimKind): (r: Result<string>)
    ensures r.Ok? <==> k in {Bool, PrimKind.Char, PrimKind.Short, PrimKind.Int, PrimKind.Long, LongLong, PrimKind.Float, PrimKind.Double, LongDouble}
    ensures r.Ok? ==> |r.value| > 2 && r.value[..2] == "C_"
  {
    match k
    case Bool => Ok("C_BOOL")
    case Char => Ok("C_CHAR")
    case Short => Ok("C_SHORT")
    case Int => Ok("C_INT")
    case Long => Ok("C_LONG")
    case LongLong => Ok("C_LONGLONG")
    case Float => Ok("C_FLOAT")
    case Double => Ok("C_DOUBLE")
    case LongDouble => Ok("C_LONGDOUBLE")
    case _ => Err(RuntimeException)
  }

  /**
   * layoutToClass: the primitive class of a scalar of the layout's bit size
   * (cast to a Java int), floating point or not.
   */
  function LayoutToClass(fp: bool, layout: MemoryLayout): (r: Result<JClass>)
    ensures r.Ok? <==> BitSize(layout).Ok? && ToInt(BitSize(layout).value) in {8, 16, 32, 64, 128}
    ensures r.Ok? ==> IsPrimitive(r.value) && !r.value.Void? && !r.value.Boolean? && !r.value.Char?
    ensures r.Ok? && (r.value.Float? || r.value.Double?) ==> fp
    ensures r.Err? ==> r.error == UnsupportedOperationException
  {
    var size :- BitSize(layout);
    var bits := ToInt(size);
    if bits == 8 then Ok(JClass.Byte)
    else if bits == 16 then Ok(JClass.Short)
    else if bits == 32 then Ok(if !fp then JClass.Int else JClass.Float)
    else if bits == 64 || bits == 128 then Ok(if !fp then JClass.Long else JClass.Double)
    else Err(UnsupportedOperationException)
  }

  /** The Java class that carries a C type (the visitor of TypeTranslator). */
  function GetJavaType(env: Scopes, t: Type): (r: Result<JClass>)
    requires ValidScopes(env) && ClosedType(env.Keys, t)
    ensures r.Ok? ==> IsPrimitive(r.value) || r.value == MemoryAddress || r.value == MemorySegment
    ensures t.FunctionType? ==> r == Err(UnsupportedOperationException)
  {
    match t
    case Primitive(k, layout) =>
      if layout.None? then Ok(Void) else LayoutToClass(IsFloatingPoint(k), layout.value)
    case Delegated(kind, _, inner) =>
      if kind == PTR then Ok(MemoryAddress) else GetJavaType(env, inner)
    case FunctionType(_, _, _) => Err(UnsupportedOperationException)
    case Declared(k) =>
      var tree := env[k];
      if tree.skind == UNION || tree.skind == STRUCT then Ok(MemorySegment)
      else if tree.skind == ENUM then
        if tree.layout.None? then Err(UnsupportedOperationException) else LayoutToClass(false, tree.layout.value)
      else Err(UnsupportedOperationException)
    case Array(_, _, _, _) => Ok(MemoryAddress)
  }

  /** appendParameterTypes(c) for the outcome c of getJavaType: void.class is rejected. */
  function AppendParameter(c: Result<JClass>): (r: Result<JClass>)
    ensures r.Ok? <==> c.Ok? && c.value != Void
    ensures r.Ok? ==> r == c
    ensures c.Err? ==> r == c
    ensures c == Ok(Void) ==> r == Err(IllegalArgumentException)
  {
    var x :- c;
    if x == Void then Err(IllegalArgumentException) else Ok(x)
  }

  /**
   * The parameter list the getMethodType loop builds from the outcomes of getJavaType on
   * the arguments, in order: the first failure, or the first void class, stops it.
   */
  function AppendAll(cs: seq<Result<JClass>>): Result<seq<JClass>>
  {
    if cs == [] then Ok([])
    else
      var init :- AppendAll(cs[..|cs| - 1]);
      var c :- AppendParameter(cs[|cs| - 1]);
      Ok(init + [c])
  }

  /** The list is built exactly when every class exists and none is void, and then it is those classes. */
  lemma {:induction false} AppendAllPointwise(cs: seq<Result<JClass>>)
    ensures AppendAll(cs).Ok? <==> forall i :: 0 <= i < |cs| ==> cs[i].Ok? && cs[i].value != Void
    ensures AppendAll(cs).Ok? ==>
      |AppendAll(cs).value| == |cs| && forall i :: 0 <= i < |cs| ==> cs[i] == Ok(AppendAll(cs).value[i])
    ensures AppendAll(cs).Err? && (forall i :: 0 <= i < |cs| ==> cs[i].Ok?) ==>
      AppendAll(cs).error == IllegalArgumentException
  {
    if cs != [] {
      var init := cs[..|cs| - 1];
      var last := AppendParameter(cs[|cs| - 1]);
      AppendAllPointwise(init);
      assert forall i :: 0 <= i < |init| ==> init[i] == cs[i];
      if AppendAll(init).Err? {
        assert AppendAll(cs) == Err(AppendAll(init).error);
        var i :| 0 <= i < |init| && !(init[i].Ok? && init[i].value != Void);
        assert !(cs[i].Ok? && cs[i].value != Void);
      } else if last.Err? {
        assert AppendAll(cs) == Err(last.error);
      } else {
        var ps := AppendAll(init).value;
        assert AppendAll(cs) == Ok(ps + [last.value]);
        forall i | 0 <= i < |cs|
          ensures cs[i] == Ok((ps + [last.value])[i])
        {
          if i < |init| {
            assert init[i] == Ok(ps[i]);
          }
        }
      }
    }
  }

  /** One more argument: the list of the first i + 1 is that of the first i and the next class. */
  lemma AppendAllSnoc(cs: seq<Result<JClass>>, i: nat)
    requires i < |cs| && AppendAll(cs[..i]).Ok? && AppendParameter(cs[i]).Ok?
    ensures AppendAll(cs[..i + 1]) == Ok(AppendAll(cs[..i]).value + [cs[i].value])
  {
    assert cs[..i + 1][..i] == cs[..i];
  }

  /** When the first argument that fails is at index k-1, the whole list fails with its error. */
  lemma {:induction false} AppendAllErr(cs: seq<Result<JClass>>, k: nat)
    requires 0 < k <= |cs| && AppendParameter(cs[k - 1]).Err?
    requires AppendAll(cs[..k - 1]).Ok?
    ensures AppendAll(cs) == Err(AppendParameter(cs[k - 1]).error)
    decreases |cs|
  {
    var init := cs[..|cs| - 1];
    if k == |cs| {
      assert init == cs[..k - 1];
    } else {
      assert init[..k - 1] == cs[..k - 1];
      AppendAllErr(init, k);
    }
  }

  /** The outcomes of getJavaType on a list of argument types. */
  function Classes(env: Scopes, ts: seq<Type>): (r: seq<Result<JClass>>)
    requires ValidScopes(env) && forall i :: 0 <= i < |ts| ==> ClosedType(env.Keys, ts[i])
    ensures |r| == |ts| && forall i :: 0 <= i < |ts| ==> r[i] == GetJavaType(env, ts[i])
  {
    seq(|ts|, i requires 0 <= i < |ts| => GetJavaType(env, ts[i]))
  }

  /** The parameter classes of a list of argument types, in order; the first that has no class, or is void, throws. */
  function TranslateAll(env: Scopes, ts: seq<Type>): Result<seq<JClass>>
    requires ValidScopes(env) && forall i :: 0 <= i < |ts| ==> ClosedType(env.Keys, ts[i])
  {
    AppendAll(Classes(env, ts))
  }

  /** The list translates exactly when every element does and none is void, and then element by element. */
  lemma TranslateAllPointwise(env: Scopes, ts: seq<Type>)
    requires ValidScopes(env) && forall i :: 0 <= i < |ts| ==> ClosedType(env.Keys, ts[i])
    ensures TranslateAll(env, ts).Ok? <==>
      forall i :: 0 <= i < |ts| ==> GetJavaType(env, ts[i]).Ok? && GetJavaType(env, ts[i]).value != Void
    ensures TranslateAll(env, ts).Ok? ==>
      |TranslateAll(env, ts).value| == |ts|
      && forall i :: 0 <= i < |ts| ==> GetJavaType(env, ts[i]) == Ok(TranslateAll(env, ts).value[i])
    ensures TranslateAll(env, ts).Err? && (forall i :: 0 <= i < |ts| ==> GetJavaType(env, ts[i]).Ok?) ==>
      TranslateAll(env, ts).error == IllegalArgumentException
  {
    AppendAllPointwise(Classes(env, ts));
  }

  /** The first argument that has no class, or is void, decides the exception of the whole list. */
  lemma TranslateAllErr(env: Scopes, ts: seq<Type>, k: nat)
    requires ValidScopes(env) && forall i :: 0 <= i < |ts| ==> ClosedType(env.Keys, ts[i])
    requires 0 < k <= |ts| && AppendParameter(GetJavaType(env, ts[k - 1])).Err?
    requires forall i :: 0 <= i < k - 1 ==> GetJavaType(env, ts[i]).Ok? && GetJavaType(env, ts[i]).value != Void
    ensures TranslateAll(env, ts) == Err(AppendParameter(GetJavaType(env, ts[k - 1])).error)
  {
    var cs := Classes(env, ts);
    AppendAllPointwise(cs[..k - 1]);
    AppendAllErr(cs, k);
  }

  /** The method type getMethodType builds: return class, argument classes, then Object[] for varargs. */
  function MethodTypeOf(env: Scopes, ft: FnType): Result<MethodType>
    requires ValidScopes(env) && ClosedType(env.Keys, ft)
  {
    var ret :- GetJavaType(env, ft.ret);
    var ps :- TranslateAll(env, ft.args);
    Ok(MethodType(ret, ps + if ft.varargs then [ObjectArray] else []))
  }

  /**
   * The method type is built exactly when the return type and every argument type have
   * a class and no argument is void; when every type has a class, only IllegalArgumentException
   * for a void argument can stop it.
   */
  lemma MethodTypeOfSpec(env: Scopes, ft: FnType)
    requires ValidScopes(env) && ClosedType(env.Keys, ft)
    ensures var r := MethodTypeOf(env, ft);
      && (r.Ok? <==> GetJavaType(env, ft.ret).Ok?
                     && forall i :: 0 <= i < |ft.args| ==> GetJavaType(env, ft.args[i]).Ok? && GetJavaType(env, ft.args[i]).value != Void)
      && (r.Err? && GetJavaType(env, ft.ret).Ok? && (forall i :: 0 <= i < |ft.args| ==> GetJavaType(env, ft.args[i]).Ok?) ==>
            r == Err(IllegalArgumentException))
      && (r.Ok? ==> r.value.ret == GetJavaType(env, ft.ret).value)
      && (r.Ok? ==> |r.value.params| == |ft.args| + (if ft.varargs then 1 else 0))
      && (r.Ok? ==> forall i :: 0 <= i < |ft.args| ==> GetJavaType(env, ft.args[i]) == Ok(r.value.params[i]))
  {
    TranslateAllPointwise(env, ft.args);
  }

  /** getMethodType: appends the class of each argument type in turn. */
  method GetMethodType(env: Scopes, ft: FnType) returns (r: Result<MethodType>)
    requires ValidScopes(env) && ClosedType(env.Keys, ft)
    ensures r == MethodTypeOf(env, ft)
    ensures r.Ok? <==> GetJavaType(env, ft.ret).Ok?
                       && forall i :: 0 <= i < |ft.args| ==> GetJavaType(env, ft.args[i]).Ok? && GetJavaType(env, ft.args[i]).value != Void
    ensures r.Err? && GetJavaType(env, ft.ret).Ok? && (forall i :: 0 <= i < |ft.args| ==> GetJavaType(env, ft.args[i]).Ok?) ==>
              r == Err(IllegalArgumentException)
    ensures r.Ok? ==> r.value.ret == GetJavaType(env, ft.ret).value
    ensures r.Ok? ==> |r.value.params| == |ft.args| + (if ft.varargs then 1 else 0)
    ensures r.Ok? ==> forall i :: 0 <= i < |ft.args| ==> GetJavaType(env, ft.args[i]) == Ok(r.value.params[i])
    ensures r.Ok? && ft.varargs ==> r.value.params[|ft.args|] == ObjectArray
  {
    var ret := GetJavaType(env, ft.ret);
    if ret.Err? {
      MethodTypeOfSpec(env, ft);
      return Err(ret.error);
    }
    var mtype := MethodType(ret.value, []);
    ghost var cs := Classes(env, ft.args);
    var i := 0;
    while i < |ft.args|
      invariant 0 <= i <= |ft.args|
      invariant AppendAll(cs[..i]).Ok?
      invariant mtype == MethodType(ret.value, AppendAll(cs[..i]).value)
    {
      var c := GetJavaType(env, ft.args[i]);
      if c.Err? {
        assert MethodTypeOf(env, ft) == Err(c.error) by { AppendAllErr(cs, i + 1); }
        MethodTypeOfSpec(env, ft);
        return Err(c.error);
      }
      if c.value == Void {
        assert MethodTypeOf(env, ft) == Err(IllegalArgumentException) by { AppendAllErr(cs, i + 1); }
        MethodTypeOfSpec(env, ft);
        return Err(IllegalArgumentException);
      }
      AppendAllSnoc(cs, i);
      mtype := MethodType(mtype.ret, mtype.params + [c.value]);
      i := i + 1;
    }
    assert cs[..i] == cs;
    assert TranslateAll(env, ft.args) == AppendAll(cs);
    assert |mtype.params| == |ft.args| by { AppendAllPointwise(cs); }
    if ft.varargs {
      mtype := MethodType(mtype.ret, mtype.params + [ObjectArray]);
    }
    assert mtype == MethodType(ret.value, AppendAll(cs).value + if ft.varargs then [ObjectArray] else []);
    MethodTypeOfSpec(env, ft);
    return Ok(mtype);
  }

  /** getCanonicalType: strips typedefs, and only typedefs. */
  function GetCanonicalType(t: Type): (r: Type)
    ensures !(r.Delegated? && r.dkind == TYPEDEF)
    ensures TypeSize(r) <= TypeSize(t)
    ensures t.Delegated? && t.dkind == TYPEDEF ==> TypeSize(r) < TypeSize(t)
  {
    if t.Delegated? && t.dkind == TYPEDEF then GetCanonicalType(t.inner) else t
  }

  lemma {:induction false} CanonicalClosed(ids: set<ScopeId>, t: Type)
    requires ClosedType(ids, t)
    ensures ClosedType(ids, GetCanonicalType(t))
  {
    if t.Delegated? && t.dkind == TYPEDEF {
      CanonicalClosed(ids, t.inner);
    }
  }

  /** Canonicalising twice is canonicalising once, and a type with no typedef on top is its own canonical type. */
  lemma CanonicalIdempotent(t: Type)
    ensures GetCanonicalType(GetCanonicalType(t)) == GetCanonicalType(t)
    ensures !(t.Delegated? && t.dkind == TYPEDEF) ==> GetCanonicalType(t) == t
  {
  }

  /** Looking through typedefs never changes the Java class of a type. */
  lemma {:induction false} CanonicalKeepsJavaType(env: Scopes, t: Type)
    requires ValidScopes(env) && ClosedType(env.Keys, t)
    ensures ClosedType(env.Keys, GetCanonicalType(t))
    ensures GetJavaType(env, GetCanonicalType(t)) == GetJavaType(env, t)
  {
    CanonicalClosed(env.Keys, t);
    if t.Delegated? && t.dkind == TYPEDEF {
      CanonicalKeepsJavaType(env, t.inner);
    }
  }

  /** The number of array levels, looking through typedefs at each level. */
  function ArrayDepth(t: Type): nat
    decreases TypeSize(t)
  {
    var c := GetCanonicalType(t);
    if c.Array? then 1 + ArrayDepth(c.elem) else 0
  }

  /** The element type under all array levels. */
  function Innermost(t: Type): (r: Type)
    ensures !r.Array? && !(r.Delegated? && r.dkind == TYPEDEF)
    decreases TypeSize(t)
  {
    var c := GetCanonicalType(t);
    if c.Array? then Innermost(c.elem) else c
  }

  /** dimension: counts array levels and returns the innermost element type. */
  method Dimension(t: Type) returns (dimensions: nat, elementType: Type)
    ensures dimensions == ArrayDepth(t) && elementType == Innermost(t)
    ensures !elementType.Array? && !(elementType.Delegated? && elementType.dkind == TYPEDEF)
  {
    dimensions := 0;
    elementType := GetCanonicalType(t);
    while elementType.Array?
      invariant elementType == GetCanonicalType(elementType)
      invariant dimensions + ArrayDepth(elementType) == ArrayDepth(t)
      invariant Innermost(elementType) == Innermost(t)
      decreases TypeSize(elementType)
    {
      dimensions := dimensions + 1;
      elementType := GetCanonicalType(elementType.elem);
    }
  }

  /** An array of n levels, each under any number of typedefs, has depth n over its element. */
  lemma DimensionOfNested(k: ArrayKind, count: Option<nat>, id: nat, name: string, e: Type)
    ensures ArrayDepth(Delegated(TYPEDEF, name, Array(k, count, id, e))) == 1 + ArrayDepth(e)
    ensures Innermost(Delegated(TYPEDEF, name, Array(k, count, id, e))) == Innermost(e)
  {
    var a := Array(k, count, id, e);
    assert GetCanonicalType(a) == a;
    assert GetCanonicalType(Delegated(TYPEDEF, name, a)) == a;
  }
}
