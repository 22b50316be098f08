/**
 * Structural matching of declarations and types (DeclarationMatch and its TypeMatch).
 *
 * Names must agree; then the visitor for the first declaration's kind decides.
 * Types are compared after stripping every delegated wrapper (typedef, pointer,
 * signed, ... alike) from both sides. Identity comparisons of the source compare
 * the identity tokens of the model.
 */
module DeclarationMatch {
  import opened Wrappers
  import opened Clang

  /** TypeMatch.getCanonicalType: strips every Delegated wrapper, pointers included. */
  function StripDelegated(t: Type): (r: Type)
    ensures !r.Delegated?
    ensures TypeSize(r) <= TypeSize(t)
    ensures t.Delegated? ==> TypeSize(r) < TypeSize(t)
  {
    if t.Delegated? then StripDelegated(t.inner) else t
  }

  lemma {:induction false} StripDelegatedClosed(ids: set<ScopeId>, t: Type)
    requires ClosedType(ids, t)
    ensures ClosedType(ids, StripDelegated(t))
  {
    if t.Delegated? {
      StripDelegatedClosed(ids, t.inner);
    }
  }

  /** Identity of two (possibly null) path references. */
  predicate SamePath(p: Position, q: Position)
  {
    p.path.None? == q.path.None? && (p.path.Some? ==> p.pathId == q.pathId)
  }

  /** Identity of two Optional<MemoryLayout> objects; the empty Optional is a singleton. */
  predicate SameLayoutObject(a: Decl, b: Decl)
    requires a.Scoped? && b.Scoped?
  {
    a.layout.None? == b.layout.None? && (a.layout.Some? ==> a.layoutId == b.layoutId)
  }

  /** visitScoped: same kind, then the same path object (toplevel), the same layout object (struct, union), or nothing more. */
  predicate ScopedMatch(a: Decl, b: Decl)
    requires a.Scoped?
  {
    b.Scoped? && a.skind == b.skind &&
    match a.skind
    case TOPLEVEL => SamePath(a.pos, b.pos)
    case STRUCT => SameLayoutObject(a, b)
    case UNION => SameLayoutObject(a, b)
    case _ => true
  }

  /** `match` on two scoped trees: what a declared type compares. */
  predicate ScopeTreesMatch(a: Decl, b: Decl)
    requires a.Scoped?
  {
    a.name == b.name && ScopedMatch(a, b)
  }

  /**
   * Identity of the two OptionalLong element counts: the empty one is a singleton,
   * present ones are equal only when they are the same object. With `byValue`
   * the counts are compared by value instead.
   */
  predicate SameCount(a: Type, b: Type, byValue: bool)
    requires a.Array? && b.Array?
  {
    if byValue then a.count == b.count
    else a.count.None? == b.count.None? && (a.count.Some? ==> a.countId == b.countId)
  }

  /** TypeMatch.equals(a, b): visits `a` with the canonical form of `b`. */
  function TypeMatchWith(env: Scopes, a: Type, b: Type, byValue: bool): bool
    requires ValidScopes(env) && ClosedType(env.Keys, a) && ClosedType(env.Keys, b)
    decreases TypeSize(a), 1
  {
    StripDelegatedClosed(env.Keys, b);
    VisitType(env, a, StripDelegated(b), byValue)
  }

  function VisitType(env: Scopes, t: Type, other: Type, byValue: bool): bool
    requires ValidScopes(env) && ClosedType(env.Keys, t) && ClosedType(env.Keys, other)
    decreases TypeSize(t), 0
  {
    match t
    case FunctionType(varargs, args, ret) =>
      other.FunctionType? && varargs == other.varargs
      && TypeMatchWith(env, ret, other.ret, byValue)
      && |args| == |other.args|
      && ArgsMatch(env, args, other.args, byValue)
    case Primitive(_, layout) =>
      other.Primitive? && layout == other.layout
    case Delegated(_, _, _) =>
      StripDelegatedClosed(env.Keys, t);
      TypeMatchWith(env, StripDelegated(t), other, byValue)
    case Declared(k) =>
      other.Declared? && ScopeTreesMatch(env[k], env[other.scope])
    case Array(_, _, _, elem) =>
      other.Array? && SameCount(t, other, byValue) && TypeMatchWith(env, elem, other.elem, byValue)
  }

  /** The argument loop of visitFunction. */
  function ArgsMatch(env: Scopes, xs: seq<Type>, ys: seq<Type>, byValue: bool): bool
    requires ValidScopes(env) && |xs| == |ys|
    requires forall i :: 0 <= i < |xs| ==> ClosedType(env.Keys, xs[i]) && ClosedType(env.Keys, ys[i])
    decreases TypesSize(xs), 2
  {
    xs == [] || (TypeMatchWith(env, xs[0], ys[0], byValue) && ArgsMatch(env, xs[1..], ys[1..], byValue))
  }

  /** TypeMatch as written: element counts compared as objects. */
  function TypeMatch(env: Scopes, a: Type, b: Type): bool
    requires ValidScopes(env) && ClosedType(env.Keys, a) && ClosedType(env.Keys, b)
  {
    TypeMatchWith(env, a, b, false)
  }

  /** TypeMatch with element counts compared by value. */
  function TypeMatchByValue(env: Scopes, a: Type, b: Type): bool
    requires ValidScopes(env) && ClosedType(env.Keys, a) && ClosedType(env.Keys, b)
  {
    TypeMatchWith(env, a, b, true)
  }

  /** DeclarationMatch.match(a, b). */
  function Match(env: Scopes, a: Decl, b: Decl): (r: bool)
    requires ValidScopes(env) && ClosedDecl(env.Keys, a) && ClosedDecl(env.Keys, b)
    ensures r ==> a.name == b.name
    ensures r && !a.Typedef? ==> a.Scoped? == b.Scoped? && a.Function? == b.Function?
                                 && a.Variable? == b.Variable? && a.Constant? == b.Constant?
    ensures a.Scoped? ==> (r <==> ScopeTreesMatch(a, b))
  {
    a.name == b.name &&
    match a
    case Scoped(_, _, _, _, _, _, _) => ScopedMatch(a, b)
    case Function(_, _, ft, _, _) => b.Function? && TypeMatch(env, ft, b.ftype)
    case Variable(_, _, _, vt, _) => b.Variable? && TypeMatch(env, vt, b.vtype)
    case Constant(_, _, ct, _, valueId) => b.Constant? && TypeMatch(env, ct, b.ctype) && valueId == b.valueId
    // visitDeclaration: the same position object
    case Typedef(_, pos, _) => pos.posId == b.pos.posId
  }

  // ---- properties ----

  /** Matching compares the two types with their wrappers stripped. */
  lemma TypeMatchStripped(env: Scopes, t: Type, u: Type, byValue: bool)
    requires ValidScopes(env) && ClosedType(env.Keys, t) && ClosedType(env.Keys, u)
    ensures ClosedType(env.Keys, StripDelegated(t)) && ClosedType(env.Keys, StripDelegated(u))
    ensures TypeMatchWith(env, t, u, byValue) == VisitType(env, StripDelegated(t), StripDelegated(u), byValue)
  {
    StripDelegatedClosed(env.Keys, t);
    StripDelegatedClosed(env.Keys, u);
    var su := StripDelegated(u);
    assert StripDelegated(su) == su;
    if t.Delegated? {
      var st := StripDelegated(t);
      assert TypeMatchWith(env, t, u, byValue) == TypeMatchWith(env, st, su, byValue);
    }
  }

  /** Every delegated wrapper is transparent, on either side: a pointer to T matches T. */
  lemma DelegatedTransparent(env: Scopes, k: DelegatedKind, n: string, t: Type, u: Type, byValue: bool)
    requires ValidScopes(env) && ClosedType(env.Keys, t) && ClosedType(env.Keys, u)
    ensures TypeMatchWith(env, Delegated(k, n, t), u, byValue) == TypeMatchWith(env, t, u, byValue)
    ensures TypeMatchWith(env, u, Delegated(k, n, t), byValue) == TypeMatchWith(env, u, t, byValue)
  {
    var d := Delegated(k, n, t);
    TypeMatchStripped(env, d, u, byValue);
    TypeMatchStripped(env, t, u, byValue);
    assert StripDelegated(d) == StripDelegated(t);
  }

  /** Every closed type matches itself. */
  lemma {:induction false} TypeMatchReflexive(env: Scopes, t: Type, byValue: bool)
    requires ValidScopes(env) && ClosedType(env.Keys, t)
    ensures TypeMatchWith(env, t, t, byValue)
    decreases TypeSize(t), 0
  {
    StripDelegatedClosed(env.Keys, t);
    match t
    case Delegated(_, _, inner) =>
      TypeMatchReflexive(env, inner, byValue);
      DelegatedTransparent(env, t.dkind, t.name, inner, t, byValue);
      DelegatedTransparent(env, t.dkind, t.name, inner, inner, byValue);
    case FunctionType(_, args, ret) =>
      TypeMatchReflexive(env, ret, byValue);
      ArgsMatchReflexive(env, args, byValue);
    case Array(_, _, _, elem) =>
      TypeMatchReflexive(env, elem, byValue);
    case Declared(k) =>
      assert env[k].Scoped?;
    case Primitive(_, _) =>
  }

  lemma {:induction false} ArgsMatchReflexive(env: Scopes, xs: seq<Type>, byValue: bool)
    requires ValidScopes(env) && forall i :: 0 <= i < |xs| ==> ClosedType(env.Keys, xs[i])
    ensures ArgsMatch(env, xs, xs, byValue)
    decreases TypesSize(xs), 1
  {
    if xs != [] {
      TypesSizeBound(xs, 0);
      TypeMatchReflexive(env, xs[0], byValue);
      ArgsMatchReflexive(env, xs[1..], byValue);
    }
  }

  /** Every closed declaration matches itself. */
  lemma DeclMatchReflexive(env: Scopes, d: Decl)
    requires ValidScopes(env) && ClosedDecl(env.Keys, d)
    ensures Match(env, d, d)
  {
    match d
    case Function(_, _, ft, _, _) => TypeMatchReflexive(env, ft, false);
    case Variable(_, _, _, vt, _) => TypeMatchReflexive(env, vt, false);
    case Constant(_, _, ct, _, _) => TypeMatchReflexive(env, ct, false);
    case _ =>
  }

  /** A declaration of one kind never matches a declaration of another kind, except through a typedef's position. */
  lemma KindsNeverMix(env: Scopes, a: Decl, b: Decl)
    requires ValidScopes(env) && ClosedDecl(env.Keys, a) && ClosedDecl(env.Keys, b)
    requires !a.Typedef? && (a.Scoped? != b.Scoped? || a.Function? != b.Function? || a.Variable? != b.Variable?
                             || a.Constant? != b.Constant?)
    ensures !Match(env, a, b)
  {
  }

  /** Two struct declarations with the same name match exactly when they share the layout object. */
  lemma StructsMatchByLayoutObject(env: Scopes, a: Decl, b: Decl)
    requires ValidScopes(env) && ClosedDecl(env.Keys, a) && ClosedDecl(env.Keys, b)
    requires a.Scoped? && b.Scoped? && a.skind == STRUCT && b.skind == STRUCT && a.name == b.name
    ensures Match(env, a, b) <==> SameLayoutObject(a, b)
  {
  }

  // ---- element counts compared as objects ----

  /** Two `int[4]` types whose counts are different objects do not match as written. */
  lemma ArrayCountObjectsDiffer(env: Scopes)
    requires ValidScopes(env)
    ensures var int32 := Primitive(Int, None);
            !TypeMatch(env, Array(FIXED, Some(4), 1, int32), Array(FIXED, Some(4), 2, int32))
  {
    var int32 := Primitive(Int, None);
    var a, b := Array(FIXED, Some(4), 1, int32), Array(FIXED, Some(4), 2, int32);
    assert StripDelegated(b) == b;
    assert !SameCount(a, b, false);
  }

  /** With counts compared by value, arrays match whatever the identity of their counts. */
  lemma ArrayMatchByValue(env: Scopes, k1: ArrayKind, k2: ArrayKind, count: Option<nat>, id1: nat, id2: nat, e: Type)
    requires ValidScopes(env) && ClosedType(env.Keys, e)
    ensures TypeMatchByValue(env, Array(k1, count, id1, e), Array(k2, count, id2, e))
  {
    var b := Array(k2, count, id2, e);
    assert StripDelegated(b) == b;
    TypeMatchReflexive(env, e, true);
  }
}
