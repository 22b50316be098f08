/**
 * SymbolDependencyCollector: the declarations a declaration needs, each once,
 * ahead of the declaration itself.
 *
 * One list is threaded through the visitors. A declared type puts the scope it
 * names at the front of the list unless the list already holds it; primitives add
 * nothing; arrays and delegates look at the type they wrap; a function type looks
 * at its return type, then at each argument in order. A scope visits its members
 * in order; functions, variables and constants visit their type. `collect(decl)`
 * starts from the one-element list `[decl]`, so `decl` stays last.
 *
 * Typedef declarations have no visitor of their own here and fall to the
 * interface's default `visitDeclaration`, which throws UnsupportedOperationException.
 */
module SymbolDependencyCollector {
  import opened Wrappers
  import opened Clang

  // ---- the visitors, as functions over the threaded list ----

  /** TypeDeclarationCollector.collect(t, base). */
  function CollectType(env: Scopes, t: Type, base: seq<Decl>): seq<Decl>
    requires ClosedType(env.Keys, t)
    decreases TypeSize(t), 0
  {
    match t
    case Primitive(_, _) => base
    case Array(_, _, _, e) => CollectType(env, e, base)
    case FunctionType(_, args, ret) => CollectTypes(env, args, CollectType(env, ret, base))
    case Declared(k) => if env[k] in base then base else [env[k]] + base
    case Delegated(_, _, inner) => CollectType(env, inner, base)
  }

  /** The loop over argument types, left to right. */
  function CollectTypes(env: Scopes, ts: seq<Type>, base: seq<Decl>): seq<Decl>
    requires forall i :: 0 <= i < |ts| ==> ClosedType(env.Keys, ts[i])
    decreases TypesSize(ts), 1
  {
    if ts == [] then base
    else
      TypesSizeSnoc(ts);
      CollectType(env, ts[|ts| - 1], CollectTypes(env, ts[..|ts| - 1], base))
  }

  /** decl.accept(SymbolDependencyCollector, base). */
  function CollectDecl(env: Scopes, d: Decl, base: seq<Decl>): Result<seq<Decl>>
    requires ClosedDecl(env.Keys, d)
    decreases DeclSize(d), 0
  {
    match d
    case Scoped(_, _, _, _, ms, _, _) => CollectDecls(env, ms, base)
    case Function(_, _, ft, _, _) => Ok(CollectType(env, ft, base))
    case Variable(_, _, _, vt, _) => Ok(CollectType(env, vt, base))
    case Constant(_, _, ct, _, _) => Ok(CollectType(env, ct, base))
    case Typedef(_, _, _) => Err(UnsupportedOperationException)
  }

  /** The loop over a scope's members, left to right. */
  function CollectDecls(env: Scopes, ds: seq<Decl>, base: seq<Decl>): Result<seq<Decl>>
    requires forall i :: 0 <= i < |ds| ==> ClosedDecl(env.Keys, ds[i])
    decreases DeclsSize(ds), 1
  {
    if ds == [] then Ok(base)
    else
      DeclsSizeSnoc(ds);
      var prev :- CollectDecls(env, ds[..|ds| - 1], base);
      CollectDecl(env, ds[|ds| - 1], prev)
  }

  /** SymbolDependencyCollector.collect(decl). */
  function Collect(env: Scopes, decl: Decl): Result<seq<Decl>>
    requires ClosedDecl(env.Keys, decl)
  {
    CollectDecl(env, decl, [decl])
  }

  // ---- the same visitors, threading the list step by step ----

  method CollectTypeInto(env: Scopes, t: Type, base: seq<Decl>) returns (r: seq<Decl>)
    requires ClosedType(env.Keys, t)
    ensures r == CollectType(env, t, base)
    decreases TypeSize(t)
  {
    match t
    case Primitive(_, _) =>
      r := base;
    case Array(_, _, _, e) =>
      r := CollectTypeInto(env, e, base);
    case Delegated(_, _, inner) =>
      r := CollectTypeInto(env, inner, base);
    case Declared(k) =>
      r := base;
      if env[k] !in r {
        r := [env[k]] + r;
      }
    case FunctionType(_, args, ret) =>
      var start := CollectTypeInto(env, ret, base);
      r := start;
      var i := 0;
      while i < |args|
        invariant 0 <= i <= |args|
        invariant r == CollectTypes(env, args[..i], start)
      {
        TypesSizeBound(args, i);
        r := CollectTypeInto(env, args[i], r);
        assert args[..i + 1][..i] == args[..i];
        i := i + 1;
      }
      assert args[..|args|] == args;
  }

  method CollectDeclInto(env: Scopes, d: Decl, base: seq<Decl>) returns (r: Result<seq<Decl>>)
    requires ClosedDecl(env.Keys, d)
    ensures r == CollectDecl(env, d, base)
    decreases DeclSize(d)
  {
    match d
    case Scoped(_, _, _, _, ms, _, _) =>
      var acc := base;
      var i := 0;
      while i < |ms|
        invariant 0 <= i <= |ms|
        invariant CollectDecls(env, ms[..i], base) == Ok(acc)
      {
        assert ms[..i + 1][..i] == ms[..i];
        DeclsSizeBound(ms, i);
        var next := CollectDeclInto(env, ms[i], acc);
        if next.Err? {
          assert CollectDecls(env, ms[..i + 1], base) == next;
          PrefixErrStays(env, ms, i + 1, base);
          assert ms[..|ms|] == ms;
          return next;
        }
        acc := next.value;
        i := i + 1;
      }
      assert ms[..|ms|] == ms;
      r := Ok(acc);
    case Function(_, _, ft, _, _) =>
      var v := CollectTypeInto(env, ft, base);
      r := Ok(v);
    case Variable(_, _, _, vt, _) =>
      var v := CollectTypeInto(env, vt, base);
      r := Ok(v);
    case Constant(_, _, ct, _, _) =>
      var v := CollectTypeInto(env, ct, base);
      r := Ok(v);
    case Typedef(_, _, _) =>
      r := Err(UnsupportedOperationException);
  }

  /** collect(decl): a fresh list holding `decl`, then the visit. */
  method CollectDependencies(env: Scopes, decl: Decl) returns (r: Result<seq<Decl>>)
    requires ClosedDecl(env.Keys, decl)
    ensures r == Collect(env, decl)
    ensures r.Ok? ==> |r.value| >= 1 && r.value[|r.value| - 1] == decl
  {
    r := CollectDeclInto(env, decl, [decl]);
    if r.Ok? {
      CollectDeclSpec(env, decl, [decl]);
    }
  }

  /** Once a member fails, the members after it are never visited and the failure stands. */
  lemma {:induction false} PrefixErrStays(env: Scopes, ds: seq<Decl>, n: nat, base: seq<Decl>)
    requires forall i :: 0 <= i < |ds| ==> ClosedDecl(env.Keys, ds[i])
    requires n <= |ds| && CollectDecls(env, ds[..n], base).Err?
    ensures CollectDecls(env, ds, base) == CollectDecls(env, ds[..n], base)
    decreases |ds| - n
  {
    if n < |ds| {
      assert ds[..n + 1][..n] == ds[..n];
      PrefixErrStays(env, ds, n + 1, base);
    } else {
      assert ds[..n] == ds;
    }
  }

  // ---- what the result holds ----

  function Elems(s: seq<Decl>): set<Decl>
  {
    set x | x in s
  }

  /** The trees of the scopes `ks` names. */
  function Trees(env: Scopes, ks: set<ScopeId>): set<Decl>
    requires ks <= env.Keys
  {
    set k | k in ks :: env[k]
  }

  predicate NoDup(s: seq<Decl>)
  {
    forall i, j :: 0 <= i < j < |s| ==> s[i] != s[j]
  }

  /** `base` is what remains at the end of `r`. */
  predicate EndsWith(r: seq<Decl>, base: seq<Decl>)
  {
    |base| <= |r| && r[|r| - |base|..] == base
  }

  /** The scopes a declaration's types name, over every member of a scope. */
  function DeclDeps(d: Decl): set<ScopeId>
    decreases DeclSize(d), 0
  {
    match d
    case Scoped(_, _, _, _, ms, _, _) => DeclsDeps(ms)
    case Function(_, _, ft, _, _) => DeclaredIn(ft)
    case Variable(_, _, _, vt, _) => DeclaredIn(vt)
    case Constant(_, _, ct, _, _) => DeclaredIn(ct)
    case Typedef(_, _, _) => {}
  }

  function DeclsDeps(ds: seq<Decl>): set<ScopeId>
    decreases DeclsSize(ds), 1
  {
    if ds == [] then {}
    else
      DeclsSizeSnoc(ds);
      DeclsDeps(ds[..|ds| - 1]) + DeclDeps(ds[|ds| - 1])
  }

  /** A typedef somewhere among the members the collector visits. */
  predicate HasTypedef(d: Decl)
  {
    match d
    case Typedef(_, _, _) => true
    case Scoped(_, _, _, _, ms, _, _) => exists i :: 0 <= i < |ms| && HasTypedef(ms[i])
    case _ => false
  }

  lemma {:induction false} DeclaredInClosed(ids: set<ScopeId>, t: Type)
    requires ClosedType(ids, t)
    ensures DeclaredIn(t) <= ids
  {
    match t
    case Primitive(_, _) =>
    case Delegated(_, _, inner) => DeclaredInClosed(ids, inner);
    case Array(_, _, _, e) => DeclaredInClosed(ids, e);
    case Declared(_) =>
    case FunctionType(_, args, ret) =>
      DeclaredInClosed(ids, ret);
      DeclaredInAllClosed(ids, args);
  }

  lemma {:induction false} DeclaredInAllClosed(ids: set<ScopeId>, ts: seq<Type>)
    requires forall i :: 0 <= i < |ts| ==> ClosedType(ids, ts[i])
    ensures DeclaredInAll(ts) <= ids
  {
    if ts != [] {
      DeclaredInClosed(ids, ts[0]);
      DeclaredInAllClosed(ids, ts[1..]);
    }
  }

  lemma {:induction false} DeclaredInAllSnoc(ts: seq<Type>)
    requires ts != []
    ensures DeclaredInAll(ts) == DeclaredInAll(ts[..|ts| - 1]) + DeclaredIn(ts[|ts| - 1])
  {
    if |ts| > 1 {
      assert ts[1..][..|ts| - 2] == ts[..|ts| - 1][1..];
      DeclaredInAllSnoc(ts[1..]);
    }
  }

  lemma {:induction false} DeclDepsClosed(ids: set<ScopeId>, d: Decl)
    requires ClosedDecl(ids, d)
    ensures DeclDeps(d) <= ids
    decreases DeclSize(d), 0
  {
    match d
    case Scoped(_, _, _, _, ms, _, _) => DeclsDepsClosed(ids, ms);
    case Function(_, _, ft, _, _) => DeclaredInClosed(ids, ft);
    case Variable(_, _, _, vt, _) => DeclaredInClosed(ids, vt);
    case Constant(_, _, ct, _, _) => DeclaredInClosed(ids, ct);
    case Typedef(_, _, _) =>
  }

  lemma {:induction false} DeclsDepsClosed(ids: set<ScopeId>, ds: seq<Decl>)
    requires forall i :: 0 <= i < |ds| ==> ClosedDecl(ids, ds[i])
    ensures DeclsDeps(ds) <= ids
    decreases DeclsSize(ds), 1
  {
    if ds != [] {
      DeclsSizeSnoc(ds);
      DeclsDepsClosed(ids, ds[..|ds| - 1]);
      DeclDepsClosed(ids, ds[|ds| - 1]);
    }
  }

  lemma TreesUnion(env: Scopes, a: set<ScopeId>, b: set<ScopeId>)
    requires a <= env.Keys && b <= env.Keys
    ensures Trees(env, a + b) == Trees(env, a) + Trees(env, b)
  {
  }

  lemma EndsWithTrans(r: seq<Decl>, m: seq<Decl>, base: seq<Decl>)
    requires EndsWith(r, m) && EndsWith(m, base)
    ensures EndsWith(r, base)
  {
    assert r[|r| - |base|..] == r[|r| - |m|..][|m| - |base|..];
  }

  /** Prepending a declaration the list lacks. */
  lemma Prepend(x: Decl, base: seq<Decl>)
    requires x !in base
    ensures EndsWith([x] + base, base)
    ensures Elems([x] + base) == Elems(base) + {x}
    ensures NoDup(base) ==> NoDup([x] + base)
  {
    var r := [x] + base;
    assert r[1..] == base;
    if NoDup(base) {
      forall i, j | 0 <= i < j < |r|
        ensures r[i] != r[j]
      {
        if i > 0 {
          assert r[i] == base[i - 1] && r[j] == base[j - 1];
        } else {
          assert r[j] == base[j - 1];
        }
      }
    }
  }

  /** The type collector only prepends: the list it was given is what remains at the end. */
  lemma {:induction false} CollectTypeKeepsBase(env: Scopes, t: Type, base: seq<Decl>)
    requires ClosedType(env.Keys, t)
    ensures EndsWith(CollectType(env, t, base), base)
    decreases TypeSize(t), 0
  {
    match t
    case Primitive(_, _) => assert base[|base| - |base|..] == base;
    case Array(_, _, _, e) => CollectTypeKeepsBase(env, e, base);
    case Delegated(_, _, inner) => CollectTypeKeepsBase(env, inner, base);
    case Declared(k) =>
      if env[k] in base {
        assert base[|base| - |base|..] == base;
      } else {
        Prepend(env[k], base);
      }
    case FunctionType(_, args, ret) =>
      var m := CollectType(env, ret, base);
      CollectTypeKeepsBase(env, ret, base);
      CollectTypesKeepsBase(env, args, m);
      EndsWithTrans(CollectType(env, t, base), m, base);
  }

  lemma {:induction false} CollectTypesKeepsBase(env: Scopes, ts: seq<Type>, base: seq<Decl>)
    requires forall i :: 0 <= i < |ts| ==> ClosedType(env.Keys, ts[i])
    ensures EndsWith(CollectTypes(env, ts, base), base)
    decreases TypesSize(ts), 1
  {
    if ts == [] {
      assert base[|base| - |base|..] == base;
    } else {
      TypesSizeSnoc(ts);
      var m := CollectTypes(env, ts[..|ts| - 1], base);
      CollectTypesKeepsBase(env, ts[..|ts| - 1], base);
      CollectTypeKeepsBase(env, ts[|ts| - 1], m);
      EndsWithTrans(CollectTypes(env, ts, base), m, base);
    }
  }

  /** What the type collector adds are exactly the trees of the scopes the type names. */
  lemma {:induction false} CollectTypeElems(env: Scopes, t: Type, base: seq<Decl>)
    requires ClosedType(env.Keys, t)
    ensures DeclaredIn(t) <= env.Keys
    ensures Elems(CollectType(env, t, base)) == Elems(base) + Trees(env, DeclaredIn(t))
    decreases TypeSize(t), 0
  {
    DeclaredInClosed(env.Keys, t);
    match t
    case Primitive(_, _) =>
    case Array(_, _, _, e) => CollectTypeElems(env, e, base);
    case Delegated(_, _, inner) => CollectTypeElems(env, inner, base);
    case Declared(k) =>
      if env[k] !in base {
        Prepend(env[k], base);
      }
    case FunctionType(_, args, ret) =>
      var m := CollectType(env, ret, base);
      CollectTypeElems(env, ret, base);
      CollectTypesElems(env, args, m);
      TreesUnion(env, DeclaredIn(ret), DeclaredInAll(args));
  }

  lemma {:induction false} CollectTypesElems(env: Scopes, ts: seq<Type>, base: seq<Decl>)
    requires forall i :: 0 <= i < |ts| ==> ClosedType(env.Keys, ts[i])
    ensures DeclaredInAll(ts) <= env.Keys
    ensures Elems(CollectTypes(env, ts, base)) == Elems(base) + Trees(env, DeclaredInAll(ts))
    decreases TypesSize(ts), 1
  {
    DeclaredInAllClosed(env.Keys, ts);
    if ts != [] {
      TypesSizeSnoc(ts);
      var init, last := ts[..|ts| - 1], ts[|ts| - 1];
      var m := CollectTypes(env, init, base);
      CollectTypesElems(env, init, base);
      CollectTypeElems(env, last, m);
      DeclaredInAllSnoc(ts);
      DeclaredInAllClosed(env.Keys, init);
      TreesUnion(env, DeclaredInAll(init), DeclaredIn(last));
    }
  }

  /** The type collector never adds a tree the list already holds. */
  lemma {:induction false} CollectTypeNoDup(env: Scopes, t: Type, base: seq<Decl>)
    requires ClosedType(env.Keys, t) && NoDup(base)
    ensures NoDup(CollectType(env, t, base))
    decreases TypeSize(t), 0
  {
    match t
    case Primitive(_, _) =>
    case Array(_, _, _, e) => CollectTypeNoDup(env, e, base);
    case Delegated(_, _, inner) => CollectTypeNoDup(env, inner, base);
    case Declared(k) =>
      if env[k] !in base {
        Prepend(env[k], base);
      }
    case FunctionType(_, args, ret) =>
      CollectTypeNoDup(env, ret, base);
      CollectTypesNoDup(env, args, CollectType(env, ret, base));
  }

  lemma {:induction false} CollectTypesNoDup(env: Scopes, ts: seq<Type>, base: seq<Decl>)
    requires forall i :: 0 <= i < |ts| ==> ClosedType(env.Keys, ts[i])
    requires NoDup(base)
    ensures NoDup(CollectTypes(env, ts, base))
    decreases TypesSize(ts), 1
  {
    if ts != [] {
      TypesSizeSnoc(ts);
      CollectTypesNoDup(env, ts[..|ts| - 1], base);
      CollectTypeNoDup(env, ts[|ts| - 1], CollectTypes(env, ts[..|ts| - 1], base));
    }
  }

  /** The three facts together. */
  lemma CollectTypeSpec(env: Scopes, t: Type, base: seq<Decl>)
    requires ClosedType(env.Keys, t)
    ensures DeclaredIn(t) <= env.Keys
    ensures EndsWith(CollectType(env, t, base), base)
    ensures Elems(CollectType(env, t, base)) == Elems(base) + Trees(env, DeclaredIn(t))
    ensures NoDup(base) ==> NoDup(CollectType(env, t, base))
  {
    CollectTypeKeepsBase(env, t, base);
    CollectTypeElems(env, t, base);
    if NoDup(base) { CollectTypeNoDup(env, t, base); }
  }

  /** The declaration collector fails exactly when it meets a typedef. */
  lemma {:induction false} CollectDeclErr(env: Scopes, d: Decl, base: seq<Decl>)
    requires ClosedDecl(env.Keys, d)
    ensures CollectDecl(env, d, base).Err? <==> HasTypedef(d)
    decreases DeclSize(d), 0
  {
    if d.Scoped? {
      CollectDeclsErr(env, d.members, base);
    }
  }

  lemma {:induction false} CollectDeclsErr(env: Scopes, ds: seq<Decl>, base: seq<Decl>)
    requires forall i :: 0 <= i < |ds| ==> ClosedDecl(env.Keys, ds[i])
    ensures CollectDecls(env, ds, base).Err? <==> exists i :: 0 <= i < |ds| && HasTypedef(ds[i])
    decreases DeclsSize(ds), 1
  {
    if ds != [] {
      DeclsSizeSnoc(ds);
      var init, last := ds[..|ds| - 1], ds[|ds| - 1];
      CollectDeclsErr(env, init, base);
      if (exists i :: 0 <= i < |init| && HasTypedef(init[i])) {
        var i :| 0 <= i < |init| && HasTypedef(init[i]);
        assert ds[i] == init[i];
      } else {
        CollectDeclErr(env, last, CollectDecls(env, init, base).value);
        if !HasTypedef(last) {
          forall i | 0 <= i < |ds|
            ensures !HasTypedef(ds[i])
          {
            if i < |init| { assert ds[i] == init[i]; }
          }
        }
      }
    }
  }

  /** When it succeeds, the declaration collector acts as the type collector over every type it visits. */
  lemma {:induction false} CollectDeclSpec(env: Scopes, d: Decl, base: seq<Decl>)
    requires ClosedDecl(env.Keys, d)
    ensures DeclDeps(d) <= env.Keys
    ensures CollectDecl(env, d, base).Ok? ==>
              var r := CollectDecl(env, d, base).value;
              EndsWith(r, base) && Elems(r) == Elems(base) + Trees(env, DeclDeps(d))
              && (NoDup(base) ==> NoDup(r))
    decreases DeclSize(d), 0
  {
    DeclDepsClosed(env.Keys, d);
    match d
    case Scoped(_, _, _, _, ms, _, _) => CollectDeclsSpec(env, ms, base);
    case Function(_, _, ft, _, _) => CollectTypeSpec(env, ft, base);
    case Variable(_, _, _, vt, _) => CollectTypeSpec(env, vt, base);
    case Constant(_, _, ct, _, _) => CollectTypeSpec(env, ct, base);
    case Typedef(_, _, _) =>
  }

  lemma {:induction false} CollectDeclsSpec(env: Scopes, ds: seq<Decl>, base: seq<Decl>)
    requires forall i :: 0 <= i < |ds| ==> ClosedDecl(env.Keys, ds[i])
    ensures DeclsDeps(ds) <= env.Keys
    ensures CollectDecls(env, ds, base).Ok? ==>
              var r := CollectDecls(env, ds, base).value;
              EndsWith(r, base) && Elems(r) == Elems(base) + Trees(env, DeclsDeps(ds))
              && (NoDup(base) ==> NoDup(r))
    decreases DeclsSize(ds), 1
  {
    DeclsDepsClosed(env.Keys, ds);
    if ds == [] {
      assert base[|base| - |base|..] == base;
    } else {
      DeclsSizeSnoc(ds);
      var init, last := ds[..|ds| - 1], ds[|ds| - 1];
      CollectDeclsSnoc(env, ds, base);
      var prev := CollectDecls(env, init, base);
      if prev.Ok? {
        CollectDeclsSpec(env, init, base);
        CollectDeclSpec(env, last, prev.value);
        DeclsDepsClosed(env.Keys, init);
        var whole := CollectDecl(env, last, prev.value);
        if whole.Ok? {
          CollectStep(env, base, prev.value, whole.value, DeclsDeps(init), DeclDeps(last));
        }
      }
    }
  }

  /** One step of the declaration collector: the last declaration is collected onto the result for the others. */
  lemma CollectDeclsSnoc(env: Scopes, ds: seq<Decl>, base: seq<Decl>)
    requires ds != []
    requires forall i :: 0 <= i < |ds| ==> ClosedDecl(env.Keys, ds[i])
    ensures DeclsDeps(ds) == DeclsDeps(ds[..|ds| - 1]) + DeclDeps(ds[|ds| - 1])
    ensures CollectDecls(env, ds, base) ==
              match CollectDecls(env, ds[..|ds| - 1], base)
              case Ok(prev) => CollectDecl(env, ds[|ds| - 1], prev)
              case Err(e) => Err(e)
  {
  }

  /** Chaining two collection steps, each ending with its base and adding the trees of its scopes. */
  lemma CollectStep(env: Scopes, base: seq<Decl>, prev: seq<Decl>, whole: seq<Decl>, a: set<ScopeId>, b: set<ScopeId>)
    requires a <= env.Keys && b <= env.Keys
    requires EndsWith(prev, base) && Elems(prev) == Elems(base) + Trees(env, a)
    requires EndsWith(whole, prev) && Elems(whole) == Elems(prev) + Trees(env, b)
    ensures EndsWith(whole, base) && Elems(whole) == Elems(base) + Trees(env, a + b)
  {
    EndsWithTrans(whole, prev, base);
    TreesUnion(env, a, b);
  }

  /**
   * collect(decl): unless it meets a typedef, the result ends with `decl`, holds
   * `decl` and the tree of every scope its types name and nothing else, each
   * once, so every dependency comes before `decl`.
   */
  lemma CollectProperties(env: Scopes, decl: Decl)
    requires ClosedDecl(env.Keys, decl)
    ensures DeclDeps(decl) <= env.Keys
    ensures Collect(env, decl).Err? <==> HasTypedef(decl)
    ensures Collect(env, decl).Ok? ==>
              var r := Collect(env, decl).value;
              |r| >= 1 && r[|r| - 1] == decl
              && NoDup(r)
              && Elems(r) == {decl} + Trees(env, DeclDeps(decl))
              && (forall i :: 0 <= i < |r| - 1 ==> r[i] != decl)
  {
    CollectDeclErr(env, decl, [decl]);
    CollectDeclSpec(env, decl, [decl]);
    assert Elems([decl]) == {decl};
  }

  /**
   * The case of `settimeofday(struct timeval*, struct timezone*)`: both structs end up
   * ahead of the function, the later argument's struct first.
   */
  lemma TwoDependenciesPrecede(tv: Decl, tz: Decl, fn: Decl)
    requires tv == Scoped(1, STRUCT, "timeval", NoPosition, [], None, 0)
    requires tz == Scoped(2, STRUCT, "timezone", NoPosition, [], None, 0)
    requires fn == Function("settimeofday", NoPosition,
                            FunctionType(false, [Delegated(PTR, "", Declared(1)), Delegated(PTR, "", Declared(2))],
                                         Primitive(Int, None)), [], None)
    ensures ClosedDecl(map[1 := tv, 2 := tz].Keys, fn)
    ensures Collect(map[1 := tv, 2 := tz], fn) == Ok([tz, tv, fn])
  {
    var env := map[1 := tv, 2 := tz];
    assert ClosedType(env.Keys, fn.ftype.args[0]) && ClosedType(env.Keys, fn.ftype.args[1]);
    var args := fn.ftype.args;
    assert args[..1][..0] == [];
    assert args == args[..2] && args[..2][..1] == args[..1];
    assert CollectType(env, fn.ftype.ret, [fn]) == [fn];
    assert CollectType(env, args[0], [fn]) == [tv, fn];
    assert CollectTypes(env, args[..1], [fn]) == [tv, fn];
    assert CollectType(env, args[1], [tv, fn]) == [tz, tv, fn];
    assert CollectTypes(env, args, [fn]) == [tz, tv, fn];
  }
}
