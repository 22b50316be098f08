/**
 * Translating C types to Java classes as jextract does (jextract tool TypeTranslator).
 * It shares isFloatingPoint, typeToLayoutName and layoutToClass with the binder
 * generator's translator and differs on function types and arrays.
 */
module JextractTypeTranslator {
  import opened Wrappers
  import opened JavaTypes
  import opened Clang
  import Jbind = JbindTypeTranslator

  /** The Java class that carries a C type: function types are function pointers, arrays are segments. */
  function GetJavaType(env: Scopes, t: Type): (r: Result<JClass>)
    requires ValidScopes(env) && ClosedType(env.Keys, t)
    ensures r.Ok? ==> IsPrimitive(r.value) || r.value == MemoryAddress || r.value == MemorySegment
    ensures t.Array? ==> (r.Ok? <==> t.akind != VECTOR)
  {
    match t
    case Primitive(k, layout) =>
      if layout.None? then Ok(Void) else Jbind.LayoutToClass(Jbind.IsFloatingPoint(k), layout.value)
    case Delegated(kind, _, inner) =>
      if kind == PTR then Ok(MemoryAddress) else GetJavaType(env, inner)
    case FunctionType(_, _, _) => Ok(MemoryAddress)
    case Declared(k) =>
      var tree := env[k];
      if tree.skind == UNION || tree.skind == STRUCT then Ok(MemorySegment)
      else if tree.skind == ENUM then
        if tree.layout.None? then Err(UnsupportedOperationException) else Jbind.LayoutToClass(false, tree.layout.value)
      else Err(UnsupportedOperationException)
    case Array(kind, _, _, _) =>
      if kind == VECTOR then Err(UnsupportedOperationException) else Ok(MemorySegment)
  }

  /** The outcomes of getJavaType on a list of argument types. */
  function Classes(env: Scopes, ts: seq<Type>): (r: seq<Result<JClass>>)
    requires ValidScopes(env) && forall i :: 0 <= i < |ts| ==> ClosedType(env.Keys, ts[i])
    ensures |r| == |ts| && forall i :: 0 <= i < |ts| ==> r[i] == GetJavaType(env, ts[i])
  {
    seq(|ts|, i requires 0 <= i < |ts| => GetJavaType(env, ts[i]))
  }

  /** The parameter classes of a list of argument types, as the binder builds them. */
  function TranslateAll(env: Scopes, ts: seq<Type>): Result<seq<JClass>>
    requires ValidScopes(env) && forall i :: 0 <= i < |ts| ==> ClosedType(env.Keys, ts[i])
  {
    Jbind.AppendAll(Classes(env, ts))
  }

  /** The list translates exactly when every element does and none is void, and then element by element. */
  lemma TranslateAllPointwise(env: Scopes, ts: seq<Type>)
    requires ValidScopes(env) && forall i :: 0 <= i < |ts| ==> ClosedType(env.Keys, ts[i])
    ensures TranslateAll(env, ts).Ok? <==>
      forall i :: 0 <= i < |ts| ==> GetJavaType(env, ts[i]).Ok? && GetJavaType(env, ts[i]).value != Void
    ensures TranslateAll(env, ts).Ok? ==>
      |TranslateAll(env, ts).value| == |ts|
      && forall i :: 0 <= i < |ts| ==> GetJavaType(env, ts[i]) == Ok(TranslateAll(env, ts).value[i])
    ensures TranslateAll(env, ts).Err? && (forall i :: 0 <= i < |ts| ==> GetJavaType(env, ts[i]).Ok?) ==>
      TranslateAll(env, ts).error == IllegalArgumentException
  {
    Jbind.AppendAllPointwise(Classes(env, ts));
  }

  /** The first argument that has no class, or is void, decides the exception of the whole list. */
  lemma TranslateAllErr(env: Scopes, ts: seq<Type>, k: nat)
    requires ValidScopes(env) && forall i :: 0 <= i < |ts| ==> ClosedType(env.Keys, ts[i])
    requires 0 < k <= |ts| && Jbind.AppendParameter(GetJavaType(env, ts[k - 1])).Err?
    requires forall i :: 0 <= i < k - 1 ==> GetJavaType(env, ts[i]).Ok? && GetJavaType(env, ts[i]).value != Void
    ensures TranslateAll(env, ts) == Err(Jbind.AppendParameter(GetJavaType(env, ts[k - 1])).error)
  {
    var cs := Classes(env, ts);
    Jbind.AppendAllPointwise(cs[..k - 1]);
    Jbind.AppendAllErr(cs, k);
  }

  /** The method type getMethodType(type, varargsCheck) builds. */
  function MethodTypeOf(env: Scopes, ft: FnType, varargsCheck: bool): Result<MethodType>
    requires ValidScopes(env) && ClosedType(env.Keys, ft)
  {
    var ret :- GetJavaType(env, ft.ret);
    var ps :- TranslateAll(env, ft.args);
    Ok(MethodType(ret, ps + if varargsCheck && ft.varargs then [ObjectArray] else []))
  }

  /**
   * The method type is built exactly when the return type and every argument type have
   * a class and no argument is void; when every type has a class, only IllegalArgumentException
   * for a void argument can stop it.
   */
  lemma MethodTypeOfSpec(env: Scopes, ft: FnType, varargsCheck: bool)
    requires ValidScopes(env) && ClosedType(env.Keys, ft)
    ensures var r := MethodTypeOf(env, ft, varargsCheck);
      && (r.Ok? <==> GetJavaType(env, ft.ret).Ok?
                     && forall i :: 0 <= i < |ft.args| ==> GetJavaType(env, ft.args[i]).Ok? && GetJavaType(env, ft.args[i]).value != Void)
      && (r.Err? && GetJavaType(env, ft.ret).Ok? && (forall i :: 0 <= i < |ft.args| ==> GetJavaType(env, ft.args[i]).Ok?) ==>
            r == Err(IllegalArgumentException))
      && (r.Ok? ==> r.value.ret == GetJavaType(env, ft.ret).value)
      && (r.Ok? ==> |r.value.params| == |ft.args| + (if varargsCheck && ft.varargs then 1 else 0))
      && (r.Ok? ==> forall i :: 0 <= i < |ft.args| ==> GetJavaType(env, ft.args[i]) == Ok(r.value.params[i]))
  {
    TranslateAllPointwise(env, ft.args);
  }

  /** getMethodType(type, varargsCheck): Object[] is appended for a variadic function only when asked. */
  method GetMethodTypeChecked(env: Scopes, ft: FnType, varargsCheck: bool) returns (r: Result<MethodType>)
    requires ValidScopes(env) && ClosedType(env.Keys, ft)
    ensures r == MethodTypeOf(env, ft, varargsCheck)
    ensures r.Ok? <==> GetJavaType(env, ft.ret).Ok?
                       && forall i :: 0 <= i < |ft.args| ==> GetJavaType(env, ft.args[i]).Ok? && GetJavaType(env, ft.args[i]).value != Void
    ensures r.Err? && GetJavaType(env, ft.ret).Ok? && (forall i :: 0 <= i < |ft.args| ==> GetJavaType(env, ft.args[i]).Ok?) ==>
              r == Err(IllegalArgumentException)
    ensures r.Ok? ==> r.value.ret == GetJavaType(env, ft.ret).value
    ensures r.Ok? ==> |r.value.params| == |ft.args| + (if varargsCheck && ft.varargs then 1 else 0)
    ensures r.Ok? ==> forall i :: 0 <= i < |ft.args| ==> GetJavaType(env, ft.args[i]) == Ok(r.value.params[i])
  {
    var ret := GetJavaType(env, ft.ret);
    if ret.Err? {
      MethodTypeOfSpec(env, ft, varargsCheck);
      return Err(ret.error);
    }
    var mtype := MethodType(ret.value, []);
    ghost var cs := Classes(env, ft.args);
    var i := 0;
    while i < |ft.args|
      invariant 0 <= i <= |ft.args|
      invariant Jbind.AppendAll(cs[..i]).Ok?
      invariant mtype == MethodType(ret.value, Jbind.AppendAll(cs[..i]).value)
    {
      var c := GetJavaType(env, ft.args[i]);
      if c.Err? {
        assert MethodTypeOf(env, ft, varargsCheck) == Err(c.error) by { Jbind.AppendAllErr(cs, i + 1); }
        MethodTypeOfSpec(env, ft, varargsCheck);
        return Err(c.error);
      }
      if c.value == Void {
        assert MethodTypeOf(env, ft, varargsCheck) == Err(IllegalArgumentException) by { Jbind.AppendAllErr(cs, i + 1); }
        MethodTypeOfSpec(env, ft, varargsCheck);
        return Err(IllegalArgumentException);
      }
      Jbind.AppendAllSnoc(cs, i);
      mtype := MethodType(mtype.ret, mtype.params + [c.value]);
      i := i + 1;
    }
    assert cs[..i] == cs;
    assert TranslateAll(env, ft.args) == Jbind.AppendAll(cs);
    if varargsCheck && ft.varargs {
      mtype := MethodType(mtype.ret, mtype.params + [ObjectArray]);
    }
    assert mtype == MethodType(ret.value, Jbind.AppendAll(cs).value + if varargsCheck && ft.varargs then [ObjectArray] else []);
    MethodTypeOfSpec(env, ft, varargsCheck);
    return Ok(mtype);
  }

  /** getMethodType(type) checks varargs. */
  method GetMethodType(env: Scopes, ft: FnType) returns (r: Result<MethodType>)
    requires ValidScopes(env) && ClosedType(env.Keys, ft)
    ensures r == MethodTypeOf(env, ft, true)
    ensures r.Ok? && ft.varargs ==> r.value.params[|r.value.params| - 1] == ObjectArray
  {
    r := GetMethodTypeChecked(env, ft, true);
  }

  /** A type with no function type and no array outside a pointer. */
  predicate NoFunctionOrArray(t: Type)
  {
    match t
    case Delegated(kind, _, inner) => kind == PTR || NoFunctionOrArray(inner)
    case FunctionType(_, _, _) => false
    case Array(_, _, _, _) => false
    case _ => true
  }

  /** The two translators agree on every type without function types or arrays outside a pointer. */
  lemma {:induction false} TranslatorsAgree(env: Scopes, t: Type)
    requires ValidScopes(env) && ClosedType(env.Keys, t)
    requires NoFunctionOrArray(t)
    ensures GetJavaType(env, t) == Jbind.GetJavaType(env, t)
  {
    if t.Delegated? && t.dkind != PTR {
      TranslatorsAgree(env, t.inner);
    }
  }

  /** Where they differ: a function type, and an array. */
  lemma TranslatorsDiffer(env: Scopes, t: Type)
    requires ValidScopes(env) && ClosedType(env.Keys, t)
    ensures t.FunctionType? ==> GetJavaType(env, t) == Ok(MemoryAddress) && Jbind.GetJavaType(env, t).Err?
    ensures t.Array? && t.akind != VECTOR ==>
      GetJavaType(env, t) == Ok(MemorySegment) && Jbind.GetJavaType(env, t) == Ok(MemoryAddress)
    ensures t.Array? && t.akind == VECTOR ==> GetJavaType(env, t).Err?
  {
  }
}
