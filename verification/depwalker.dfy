/**
 * TypeDependencyWalker: walks every type a declaration or a type uses, asking a
 * handler at each declaration whether to look inside it.
 *
 * The walker keeps `loopDetection`, the scopes it has entered. A scope already in it
 * is skipped without asking the handler, so a struct that points to itself is
 * entered once. A scope enters `loopDetection`, and its members are walked, only
 * when the handler accepts it. A function type is offered to the handler as an
 * implicit typedef with an empty name at the referencing declaration's position; a
 * TYPEDEF delegate is offered as a typedef declaration of that name.
 *
 * The handler is a visitor in the source; here it is a function of the declaration
 * offered and the declaration that references it. Every call of the handler is
 * recorded in the ghost `trace`.
 */
module TypeDependencyWalker {
  import opened Wrappers
  import opened Clang

  /** One call of the handler: the declaration offered, the declaration referencing it, the answer. */
  datatype Offer = Offer(decl: Decl, parent: Decl, accepted: bool)

  /** The scopes the handler accepted. */
  function AcceptedScopes(trace: seq<Offer>): set<ScopeId>
  {
    set i | 0 <= i < |trace| && trace[i].accepted && trace[i].decl.Scoped? :: trace[i].decl.id
  }

  /** `p` is the root reference, or a declaration the handler accepted among the first `n` offers. */
  predicate KnownParent(trace: seq<Offer>, n: nat, root: Decl, p: Decl)
    requires n <= |trace|
  {
    p == root || exists j :: 0 <= j < n && trace[j].accepted && trace[j].decl == p
  }

  predicate Prefix(a: seq<Offer>, b: seq<Offer>)
  {
    |a| <= |b| && b[..|a|] == a
  }

  /** Declaration.toplevel(NO_POSITION, decl), the parent walkDeclaration starts from. */
  function Toplevel(topId: ScopeId, decl: Decl): (r: Decl)
    ensures r.Scoped? && r.skind == TOPLEVEL && r.members == [decl] && r.pos == NoPosition
  {
    Scoped(topId, TOPLEVEL, "", NoPosition, [decl], None, 0)
  }

  /** Termination rank of a declaration walk: entering a scope is paid for by `loopDetection`. */
  function DeclRank(d: Decl): nat
  {
    if d.Scoped? then 0 else DeclSize(d) + 1
  }

  lemma AcceptedScopesSnoc(trace: seq<Offer>, o: Offer)
    ensures AcceptedScopes(trace + [o]) ==
            AcceptedScopes(trace) + (if o.accepted && o.decl.Scoped? then {o.decl.id} else {})
  {
    var t := trace + [o];
    forall k | k in AcceptedScopes(t)
      ensures k in AcceptedScopes(trace) + (if o.accepted && o.decl.Scoped? then {o.decl.id} else {})
    {
      var i :| 0 <= i < |t| && t[i].accepted && t[i].decl.Scoped? && t[i].decl.id == k;
      if i < |trace| { assert t[i] == trace[i]; }
    }
    forall k | k in AcceptedScopes(trace)
      ensures k in AcceptedScopes(t)
    {
      var i :| 0 <= i < |trace| && trace[i].accepted && trace[i].decl.Scoped? && trace[i].decl.id == k;
      assert t[i] == trace[i];
    }
    if o.accepted && o.decl.Scoped? {
      assert t[|trace|] == o;
    }
  }

  lemma KnownParentGrows(a: seq<Offer>, b: seq<Offer>, root: Decl, p: Decl)
    requires Prefix(a, b) && KnownParent(a, |a|, root, p)
    ensures KnownParent(b, |b|, root, p)
  {
    if p != root {
      var j :| 0 <= j < |a| && a[j].accepted && a[j].decl == p;
      assert b[j] == b[..|a|][j];
    }
  }

  lemma PrefixTrans(a: seq<Offer>, b: seq<Offer>, c: seq<Offer>)
    requires Prefix(a, b) && Prefix(b, c)
    ensures Prefix(a, c)
  {
    assert c[..|a|] == c[..|b|][..|a|];
  }

  /** Entering one more scope leaves fewer scopes to enter. */
  lemma Shrinks(keys: set<ScopeId>, v: set<ScopeId>, w: set<ScopeId>, k: ScopeId)
    requires v + {k} <= w && k in keys && k !in v
    ensures |keys - w| < |keys - v|
  {
    var small, big := keys - w, keys - v;
    assert small <= big - {k};
    assert |small| <= |big - {k}| by { SubsetCard(small, big - {k}); }
  }

  lemma Monotone(keys: set<ScopeId>, v: set<ScopeId>, w: set<ScopeId>)
    requires v <= w
    ensures |keys - w| <= |keys - v|
  {
    SubsetCard(keys - w, keys - v);
  }

  lemma SubsetCard(a: set<ScopeId>, b: set<ScopeId>)
    requires a <= b
    ensures |a| <= |b|
  {
    assert b == a + (b - a);
  }

  // ---- the reference walk ----

  /** What a walk did: the handler calls it made, in order, and loopDetection when it ended. */
  datatype Walked = Walked(offers: seq<Offer>, entered: set<ScopeId>)

  /**
   * The walk of type `t` referenced from `reference`, starting with `v` entered
   * (typeWalker): a declared scope is walked as a declaration, a TYPEDEF delegate as
   * a typedef of its name at the reference's position, any other delegate and an
   * array through the type they wrap, and a function type is offered as an unnamed
   * typedef whose return type, then argument types, are walked once accepted.
   */
  function TypeWalk(env: Scopes, handler: (Decl, Decl) -> bool, v: set<ScopeId>, t: Type, reference: Decl): (r: Walked)
    ensures v <= r.entered
    decreases |env.Keys - v|, TypeSize(t) + 1, 1
  {
    match t
    case Primitive(_, _) => Walked([], v)
    case Declared(k) =>
      if k in env && env[k].Scoped? then DeclWalk(env, handler, v, env[k], reference) else Walked([], v)
    case Delegated(kind, name, inner) =>
      if kind == TYPEDEF then DeclWalk(env, handler, v, Typedef(name, reference.pos, inner), reference)
      else TypeWalk(env, handler, v, inner, reference)
    case Array(_, _, _, e) => TypeWalk(env, handler, v, e, reference)
    case FunctionType(_, args, ret) =>
      var fnTypeDef := Typedef("", reference.pos, t);
      if !handler(fnTypeDef, reference) then Walked([Offer(fnTypeDef, reference, false)], v)
      else
        var r1 := TypeWalk(env, handler, v, ret, reference);
        Monotone(env.Keys, v, r1.entered);
        var r2 := TypesWalk(env, handler, r1.entered, args, reference);
        Walked([Offer(fnTypeDef, reference, true)] + r1.offers + r2.offers, r2.entered)
  }

  /** The walks of `ts`, one after the other, each starting where the previous one ended. */
  function TypesWalk(env: Scopes, handler: (Decl, Decl) -> bool, v: set<ScopeId>, ts: seq<Type>, reference: Decl): (r: Walked)
    ensures v <= r.entered
    decreases |env.Keys - v|, TypesSize(ts) + 1, 2
  {
    if ts == [] then Walked([], v)
    else
      TypesSizeSnoc(ts);
      var r1 := TypesWalk(env, handler, v, ts[..|ts| - 1], reference);
      Monotone(env.Keys, v, r1.entered);
      var r2 := TypeWalk(env, handler, r1.entered, ts[|ts| - 1], reference);
      Walked(r1.offers + r2.offers, r2.entered)
  }

  /** The walk of declaration `d` referenced from `parent` (declWalker): an entered scope is skipped. */
  function DeclWalk(env: Scopes, handler: (Decl, Decl) -> bool, v: set<ScopeId>, d: Decl, parent: Decl): (r: Walked)
    ensures v <= r.entered
    decreases |env.Keys - v|, DeclRank(d), 3
  {
    if d.Scoped? && d.id in v then Walked([], v) else OfferedWalk(env, handler, v, d, parent)
  }

  /** A declaration not yet entered is offered; an accepted scope is entered and what is accepted is walked. */
  function OfferedWalk(env: Scopes, handler: (Decl, Decl) -> bool, v: set<ScopeId>, d: Decl, parent: Decl): (r: Walked)
    requires d.Scoped? ==> d.id !in v
    ensures v <= r.entered
    decreases |env.Keys - v|, DeclRank(d), 2
  {
    if !handler(d, parent) then Walked([Offer(d, parent, false)], v)
    else
      var v1 := if d.Scoped? then v + {d.id} else v;
      assert (if d.Scoped? then v1 - {d.id} else v1) == v;
      var r1 := AcceptedWalk(env, handler, v1, d);
      Walked([Offer(d, parent, true)] + r1.offers, r1.entered)
  }

  /** What an accepted declaration walks: a scope its members, a function its signature, anything else its type. */
  function AcceptedWalk(env: Scopes, handler: (Decl, Decl) -> bool, v: set<ScopeId>, d: Decl): (r: Walked)
    requires d.Scoped? ==> d.id in v
    ensures v <= r.entered
    decreases |env.Keys - (if d.Scoped? then v - {d.id} else v)|, DeclRank(d), 1
  {
    match d
    case Scoped(id, _, _, _, ms, _, _) =>
      if id !in env then Walked([], v)
      else
        Shrinks(env.Keys, v - {id}, v, id);
        DeclsWalk(env, handler, v, ms, d)
    case Function(_, _, _, _, _) => FunctionWalk(env, handler, v, d)
    case Variable(_, _, _, vt, _) => TypeWalk(env, handler, v, vt, d)
    case Constant(_, _, ct, _, _) => TypeWalk(env, handler, v, ct, d)
    case Typedef(_, _, tt) => TypeWalk(env, handler, v, tt, d)
  }

  /** An accepted function: its return type, then its parameters, under the function. */
  function FunctionWalk(env: Scopes, handler: (Decl, Decl) -> bool, v: set<ScopeId>, d: Decl): (r: Walked)
    requires d.Function?
    ensures v <= r.entered
    decreases |env.Keys - v|, DeclRank(d), 0
  {
    var r1 := TypeWalk(env, handler, v, d.ftype.ret, d);
    Monotone(env.Keys, v, r1.entered);
    var r2 := DeclsWalk(env, handler, r1.entered, d.params, d);
    Walked(r1.offers + r2.offers, r2.entered)
  }

  /** The walks of `ds`, one after the other, all under `parent`. */
  function DeclsWalk(env: Scopes, handler: (Decl, Decl) -> bool, v: set<ScopeId>, ds: seq<Decl>, parent: Decl): (r: Walked)
    ensures v <= r.entered
    decreases |env.Keys - v|, DeclsSize(ds) + 1, 4
  {
    if ds == [] then Walked([], v)
    else
      DeclsSizeSnoc(ds);
      var r1 := DeclsWalk(env, handler, v, ds[..|ds| - 1], parent);
      Monotone(env.Keys, v, r1.entered);
      var r2 := DeclWalk(env, handler, r1.entered, ds[|ds| - 1], parent);
      Walked(r1.offers + r2.offers, r2.entered)
  }

  /** One more type extends the walk of a list by that type's walk. */
  lemma TypesWalkStep(env: Scopes, handler: (Decl, Decl) -> bool, v: set<ScopeId>, ts: seq<Type>, i: nat, reference: Decl)
    requires i < |ts|
    ensures var before := TypesWalk(env, handler, v, ts[..i], reference);
            var step := TypeWalk(env, handler, before.entered, ts[i], reference);
            TypesWalk(env, handler, v, ts[..i + 1], reference) == Walked(before.offers + step.offers, step.entered)
  {
    assert ts[..i + 1][..i] == ts[..i];
  }

  /** One more declaration extends the walk of a list by that declaration's walk. */
  lemma DeclsWalkStep(env: Scopes, handler: (Decl, Decl) -> bool, v: set<ScopeId>, ds: seq<Decl>, i: nat, parent: Decl)
    requires i < |ds|
    ensures var before := DeclsWalk(env, handler, v, ds[..i], parent);
            var step := DeclWalk(env, handler, before.entered, ds[i], parent);
            DeclsWalk(env, handler, v, ds[..i + 1], parent) == Walked(before.offers + step.offers, step.entered)
  {
    assert ds[..i + 1][..i] == ds[..i];
  }

  lemma PrefixAppend(a: seq<Offer>, b: seq<Offer>)
    ensures Prefix(a, a + b)
  {
    assert (a + b)[..|a|] == a;
  }

  lemma Regroup(a: seq<Offer>, b: seq<Offer>, c: seq<Offer>)
    ensures a + b + c == a + (b + c)
  {
  }

  lemma PrefixPrepend(h: seq<Offer>, a: seq<Offer>, b: seq<Offer>)
    requires Prefix(a, b)
    ensures Prefix(h + a, h + b)
  {
    assert (h + b)[..|h + a|] == h + b[..|a|];
  }

  // ---- what the walk does ----

  /**
   * An entered scope is skipped without a question; anything else is offered to
   * the handler first, under its parent; a refusal ends that walk with nothing
   * entered; an accepted scope is entered.
   */
  lemma DeclWalkOffers(env: Scopes, handler: (Decl, Decl) -> bool, v: set<ScopeId>, d: Decl, parent: Decl)
    ensures var r := DeclWalk(env, handler, v, d, parent);
            (d.Scoped? && d.id in v ==> r == Walked([], v))
            && (!(d.Scoped? && d.id in v) ==> |r.offers| > 0 && r.offers[0] == Offer(d, parent, handler(d, parent)))
            && (!(d.Scoped? && d.id in v) && !handler(d, parent) ==> r == Walked([Offer(d, parent, false)], v))
            && (d.Scoped? && handler(d, parent) ==> d.id in r.entered)
  {
    if !(d.Scoped? && d.id in v) && handler(d, parent) {
      var v1 := if d.Scoped? then v + {d.id} else v;
      var r1 := AcceptedWalk(env, handler, v1, d);
      assert DeclWalk(env, handler, v, d, parent) == Walked([Offer(d, parent, true)] + r1.offers, r1.entered);
    }
  }

  /**
   * A primitive asks nothing; a declared scope is walked as that declaration; a
   * TYPEDEF delegate is offered as a typedef of its name at the reference's
   * position; a function type is offered as an unnamed typedef there, and walks
   * nothing more when refused.
   */
  lemma TypeWalkOffers(env: Scopes, handler: (Decl, Decl) -> bool, v: set<ScopeId>, t: Type, reference: Decl)
    requires ValidScopes(env) && ClosedType(env.Keys, t)
    ensures var r := TypeWalk(env, handler, v, t, reference);
            (t.Primitive? ==> r == Walked([], v))
            && (t.Declared? ==> r == DeclWalk(env, handler, v, env[t.scope], reference))
            && (t.Delegated? && t.dkind == TYPEDEF ==>
                  var typedef := Typedef(t.name, reference.pos, t.inner);
                  |r.offers| > 0 && r.offers[0] == Offer(typedef, reference, handler(typedef, reference)))
            && (t.FunctionType? ==>
                  var fnTypeDef := Typedef("", reference.pos, t);
                  |r.offers| > 0 && r.offers[0] == Offer(fnTypeDef, reference, handler(fnTypeDef, reference))
                  && (!handler(fnTypeDef, reference) ==> r == Walked([Offer(fnTypeDef, reference, false)], v)))
  {
    if t.Delegated? && t.dkind == TYPEDEF {
      DeclWalkOffers(env, handler, v, Typedef(t.name, reference.pos, t.inner), reference);
    }
  }

  /** An array is walked as its element type, and a delegate other than TYPEDEF as the type it wraps. */
  lemma WrappersWalkInner(env: Scopes, handler: (Decl, Decl) -> bool, v: set<ScopeId>, t: Type, reference: Decl)
    ensures t.Array? ==> TypeWalk(env, handler, v, t, reference) == TypeWalk(env, handler, v, t.elem, reference)
    ensures t.Delegated? && t.dkind != TYPEDEF ==>
              TypeWalk(env, handler, v, t, reference) == TypeWalk(env, handler, v, t.inner, reference)
  {
  }

  /**
   * A list of types is walked in order: the walk of `ts[i]` comes right after the
   * walks of the types before it.
   */
  lemma {:induction false} TypesWalkInOrder(env: Scopes, handler: (Decl, Decl) -> bool, v: set<ScopeId>, ts: seq<Type>, reference: Decl, i: nat)
    requires i < |ts|
    ensures var before := TypesWalk(env, handler, v, ts[..i], reference);
            Prefix(before.offers + TypeWalk(env, handler, before.entered, ts[i], reference).offers,
                   TypesWalk(env, handler, v, ts, reference).offers)
    decreases |ts|
  {
    var n := |ts| - 1;
    var r1 := TypesWalk(env, handler, v, ts[..n], reference);
    var r2 := TypeWalk(env, handler, r1.entered, ts[n], reference);
    var all := TypesWalk(env, handler, v, ts, reference).offers;
    assert all == r1.offers + r2.offers;
    if i == n {
      assert Prefix(r1.offers + r2.offers, all);
    } else {
      var before := TypesWalk(env, handler, v, ts[..i], reference);
      var mine := before.offers + TypeWalk(env, handler, before.entered, ts[i], reference).offers;
      assert ts[..n][..i] == ts[..i] && ts[..n][i] == ts[i];
      TypesWalkInOrder(env, handler, v, ts[..n], reference, i);
      PrefixAppend(r1.offers, r2.offers);
      PrefixTrans(mine, r1.offers, all);
    }
  }

  /**
   * A list of declarations is walked in order: the walk of `ds[i]` comes right
   * after the walks of the declarations before it, and starts with `ds[i]` offered
   * under `parent` unless it is a scope entered by then.
   */
  lemma {:induction false} DeclsWalkInOrder(env: Scopes, handler: (Decl, Decl) -> bool, v: set<ScopeId>, ds: seq<Decl>, parent: Decl, i: nat)
    requires i < |ds|
    ensures var before := DeclsWalk(env, handler, v, ds[..i], parent);
            var all := DeclsWalk(env, handler, v, ds, parent).offers;
            Prefix(before.offers + DeclWalk(env, handler, before.entered, ds[i], parent).offers, all)
            && (!(ds[i].Scoped? && ds[i].id in before.entered) ==>
                  |all| > |before.offers| && all[|before.offers|] == Offer(ds[i], parent, handler(ds[i], parent)))
    decreases |ds|
  {
    var before := DeclsWalk(env, handler, v, ds[..i], parent);
    var mine := before.offers + DeclWalk(env, handler, before.entered, ds[i], parent).offers;
    var all := DeclsWalk(env, handler, v, ds, parent).offers;
    var n := |ds| - 1;
    var r1 := DeclsWalk(env, handler, v, ds[..n], parent);
    var r2 := DeclWalk(env, handler, r1.entered, ds[n], parent);
    assert all == r1.offers + r2.offers;
    if i == n {
      assert Prefix(mine, all);
    } else {
      assert ds[..n][..i] == ds[..i] && ds[..n][i] == ds[i];
      DeclsWalkInOrder(env, handler, v, ds[..n], parent, i);
      PrefixAppend(r1.offers, r2.offers);
      PrefixTrans(mine, r1.offers, all);
    }
    DeclWalkOffers(env, handler, before.entered, ds[i], parent);
    if !(ds[i].Scoped? && ds[i].id in before.entered) {
      assert all[..|mine|][|before.offers|] == mine[|before.offers|];
    }
  }

  /**
   * visitScoped: an accepted scope not yet entered is offered, entered, and then
   * its members are walked in order under it; member `i` is offered right after
   * the walks of the members before it, unless it is a scope entered by then.
   */
  lemma AcceptedScopeWalksMembersInOrder(env: Scopes, handler: (Decl, Decl) -> bool, v: set<ScopeId>, d: Decl, parent: Decl, i: nat)
    requires d.Scoped? && d.id in env && d.id !in v && handler(d, parent) && i < |d.members|
    ensures var all := DeclWalk(env, handler, v, d, parent);
            var before := DeclsWalk(env, handler, v + {d.id}, d.members[..i], d);
            var m := d.members[i];
            |all.offers| > 0 && all.offers[0] == Offer(d, parent, true) && d.id in all.entered
            && Prefix([Offer(d, parent, true)] + (before.offers + DeclWalk(env, handler, before.entered, m, d).offers), all.offers)
            && (!(m.Scoped? && m.id in before.entered) ==>
                  |all.offers| > 1 + |before.offers| && all.offers[1 + |before.offers|] == Offer(m, d, handler(m, d)))
  {
    var ms := d.members;
    var inner := DeclsWalk(env, handler, v + {d.id}, ms, d);
    assert AcceptedWalk(env, handler, v + {d.id}, d) == inner;
    assert OfferedWalk(env, handler, v, d, parent) == Walked([Offer(d, parent, true)] + inner.offers, inner.entered);
    assert DeclWalk(env, handler, v, d, parent) == Walked([Offer(d, parent, true)] + inner.offers, inner.entered);
    DeclsWalkInOrder(env, handler, v + {d.id}, ms, d, i);
    var before := DeclsWalk(env, handler, v + {d.id}, ms[..i], d);
    var mine := before.offers + DeclWalk(env, handler, before.entered, ms[i], d).offers;
    PrefixPrepend([Offer(d, parent, true)], mine, inner.offers);
  }

  /**
   * visitFunction: an accepted function is offered, then its return type is
   * walked, then its parameters in order, all under the function; parameter `i`
   * is offered right after the return type's walk and the walks of the parameters
   * before it, unless it is a scope entered by then.
   */
  lemma AcceptedFunctionWalksReturnThenParams(env: Scopes, handler: (Decl, Decl) -> bool, v: set<ScopeId>, fn: Decl, parent: Decl, i: nat)
    requires fn.Function? && handler(fn, parent) && i < |fn.params|
    ensures var all := DeclWalk(env, handler, v, fn, parent).offers;
            var ret := TypeWalk(env, handler, v, fn.ftype.ret, fn);
            var before := DeclsWalk(env, handler, ret.entered, fn.params[..i], fn);
            var p := fn.params[i];
            Prefix([Offer(fn, parent, true)] + (ret.offers + (before.offers + DeclWalk(env, handler, before.entered, p, fn).offers)), all)
            && (!(p.Scoped? && p.id in before.entered) ==>
                  |all| > 1 + |ret.offers| + |before.offers| && all[1 + |ret.offers| + |before.offers|] == Offer(p, fn, handler(p, fn)))
  {
    var ps := fn.params;
    var ret := TypeWalk(env, handler, v, fn.ftype.ret, fn);
    var rest := DeclsWalk(env, handler, ret.entered, ps, fn);
    assert AcceptedWalk(env, handler, v, fn).offers == ret.offers + rest.offers;
    assert DeclWalk(env, handler, v, fn, parent).offers == [Offer(fn, parent, true)] + (ret.offers + rest.offers);
    DeclsWalkInOrder(env, handler, ret.entered, ps, fn, i);
    var before := DeclsWalk(env, handler, ret.entered, ps[..i], fn);
    var mine := before.offers + DeclWalk(env, handler, before.entered, ps[i], fn).offers;
    PrefixPrepend(ret.offers, mine, rest.offers);
    PrefixPrepend([Offer(fn, parent, true)], ret.offers + mine, ret.offers + rest.offers);
  }

  /**
   * visitFunction of typeWalker: an accepted function type walks its return type,
   * then its argument types in order, all referenced from the same declaration.
   */
  lemma AcceptedFunctionTypeWalksReturnThenArgs(env: Scopes, handler: (Decl, Decl) -> bool, v: set<ScopeId>, t: Type, reference: Decl, i: nat)
    requires t.FunctionType? && handler(Typedef("", reference.pos, t), reference) && i < |t.args|
    ensures var all := TypeWalk(env, handler, v, t, reference).offers;
            var ret := TypeWalk(env, handler, v, t.ret, reference);
            var before := TypesWalk(env, handler, ret.entered, t.args[..i], reference);
            Prefix([Offer(Typedef("", reference.pos, t), reference, true)] + ret.offers
                   + (before.offers + TypeWalk(env, handler, before.entered, t.args[i], reference).offers), all)
  {
    var args := t.args;
    var ret := TypeWalk(env, handler, v, t.ret, reference);
    var rest := TypesWalk(env, handler, ret.entered, args, reference);
    var head := [Offer(Typedef("", reference.pos, t), reference, true)] + ret.offers;
    assert TypeWalk(env, handler, v, t, reference).offers == head + rest.offers;
    TypesWalkInOrder(env, handler, ret.entered, args, reference, i);
    var before := TypesWalk(env, handler, ret.entered, args[..i], reference);
    var mine := before.offers + TypeWalk(env, handler, before.entered, args[i], reference).offers;
    PrefixPrepend(head, mine, rest.offers);
  }

  /**
   * Loop detection: a struct whose field points back to it, walked with a handler
   * that accepts everything, offers the struct and its field once each, and the
   * pointer back to the struct asks nothing.
   */
  lemma SelfReferenceEnteredOnce()
    ensures var field := Variable(FIELD, "next", NoPosition, Delegated(PTR, "", Declared(1)), None);
            var s := Scoped(1, STRUCT, "node", NoPosition, [field], None, 0);
            var env := map[1 := s];
            var top := Toplevel(0, s);
            var all := (d: Decl, p: Decl) => true;
            ValidScopes(env)
            && DeclWalk(env, all, {}, s, top) == Walked([Offer(s, top, true), Offer(field, s, true)], {1})
  {
    var field := Variable(FIELD, "next", NoPosition, Delegated(PTR, "", Declared(1)), None);
    var s := Scoped(1, STRUCT, "node", NoPosition, [field], None, 0);
    var env := map[1 := s];
    var top := Toplevel(0, s);
    var all := (d: Decl, p: Decl) => true;
    assert ClosedType(env.Keys, field.vtype);
    assert ClosedDecl(env.Keys, s);
    assert env.Keys == {1} && env[1] == s;
    assert TypeWalk(env, all, {1}, Declared(1), field) == Walked([], {1});
    assert TypeWalk(env, all, {1}, field.vtype, field) == Walked([], {1});
    assert AcceptedWalk(env, all, {1}, field) == Walked([], {1});
    assert OfferedWalk(env, all, {1}, field, s) == Walked([Offer(field, s, true)], {1});
    assert DeclWalk(env, all, {1}, field, s) == Walked([Offer(field, s, true)], {1});
    assert [field][..0] == [];
    assert DeclsWalk(env, all, {1}, [field], s) == Walked([Offer(field, s, true)], {1});
    assert AcceptedWalk(env, all, {1}, s) == Walked([Offer(field, s, true)], {1});
    var none: set<ScopeId> := {};
    assert none + {s.id} == {1};
    assert OfferedWalk(env, all, {}, s, top) == Walked([Offer(s, top, true), Offer(field, s, true)], {1});
  }

  class Walker {
    const env: Scopes
    /** accepted.visitXxx(decl, parent) */
    const handler: (Decl, Decl) -> bool
    /** The reference the walk starts from. */
    const root: Decl
    var loopDetection: set<ScopeId>
    ghost var trace: seq<Offer>

    /** What holds between handler calls, except the agreement of `loopDetection` with the trace. */
    ghost predicate Ledger()
      reads this
    {
      ValidScopes(env)
      && AcceptedScopes(trace) <= env.Keys
      && (forall i :: 0 <= i < |trace| ==> trace[i].accepted == handler(trace[i].decl, trace[i].parent))
      && (forall i {:trigger KnownParent(trace, i, root, trace[i].parent)} ::
            0 <= i < |trace| ==> KnownParent(trace, i, root, trace[i].parent))
      && (forall i, j :: 0 <= i < j < |trace| && trace[i].accepted && trace[i].decl.Scoped? && trace[j].decl.Scoped?
            ==> trace[i].decl.id != trace[j].decl.id)
    }

    /**
     * Every answer is the handler's; every declaration is offered under the root or
     * under a declaration accepted before it; no scope is offered again once accepted;
     * `loopDetection` is exactly the set of accepted scopes.
     */
    ghost predicate Valid()
      reads this
    {
      Ledger() && loopDetection == AcceptedScopes(trace)
    }

    constructor (env: Scopes, handler: (Decl, Decl) -> bool, root: Decl)
      requires ValidScopes(env)
      ensures this.env == env && this.handler == handler && this.root == root
      ensures loopDetection == {} && trace == []
      ensures Valid()
    {
      this.env := env;
      this.handler := handler;
      this.root := root;
      loopDetection := {};
      trace := [];
    }

    /** One call of the handler. */
    method Ask(d: Decl, parent: Decl) returns (ok: bool)
      requires Valid() && ClosedDecl(env.Keys, d) && KnownParent(trace, |trace|, root, parent)
      requires d.Scoped? ==> d.id !in loopDetection
      modifies this
      ensures ok == handler(d, parent)
      ensures trace == old(trace) + [Offer(d, parent, ok)] && loopDetection == old(loopDetection)
      ensures Ledger()
      ensures AcceptedScopes(trace) == loopDetection + (if ok && d.Scoped? then {d.id} else {})
    {
      ok := handler(d, parent);
      var o := Offer(d, parent, ok);
      AcceptedScopesSnoc(trace, o);
      trace := trace + [o];
      assert forall i :: 0 <= i < |old(trace)| ==> trace[i] == old(trace)[i];
      forall i | 0 <= i < |trace|
        ensures KnownParent(trace, i, root, trace[i].parent)
      {
        if i < |old(trace)| {
          assert KnownParent(old(trace), i, root, old(trace)[i].parent);
          if old(trace)[i].parent != root {
            var j :| 0 <= j < i && old(trace)[j].accepted && old(trace)[j].decl == old(trace)[i].parent;
            assert trace[j] == old(trace)[j];
          }
        } else {
          if parent != root {
            var j :| 0 <= j < |old(trace)| && old(trace)[j].accepted && old(trace)[j].decl == parent;
            assert trace[j] == old(trace)[j];
          }
        }
      }
    }

    /** loopDetection.add(id), for a scope just accepted. */
    method Enter(id: ScopeId)
      requires Ledger() && AcceptedScopes(trace) == loopDetection + {id}
      modifies this
      ensures Valid() && trace == old(trace) && loopDetection == old(loopDetection) + {id}
    {
      loopDetection := loopDetection + {id};
    }

    /** typeWalker: the walk of a type referenced from `reference`. */
    method VisitType(t: Type, reference: Decl)
      requires Valid() && ClosedType(env.Keys, t) && KnownParent(trace, |trace|, root, reference)
      modifies this
      ensures Valid() && Prefix(old(trace), trace) && old(loopDetection) <= loopDetection
      ensures var w := TypeWalk(env, handler, old(loopDetection), t, reference);
              trace == old(trace) + w.offers && loopDetection == w.entered
      decreases |env.Keys - loopDetection|, TypeSize(t) + 1, 1
    {
      match t
      case Primitive(_, _) =>
      case Declared(k) =>
        VisitDecl(env[k], reference);
      case Delegated(kind, name, inner) =>
        if kind == TYPEDEF {
          VisitDecl(Typedef(name, reference.pos, inner), reference);
        } else {
          VisitType(inner, reference);
        }
      case Array(_, _, _, e) =>
        VisitType(e, reference);
      case FunctionType(_, _, _) =>
        VisitFunctionType(t, reference);
    }

    /** A function type is offered as an unnamed typedef; if accepted, its return and argument types are walked. */
    method VisitFunctionType(t: Type, reference: Decl)
      requires t.FunctionType?
      requires Valid() && ClosedType(env.Keys, t) && KnownParent(trace, |trace|, root, reference)
      modifies this
      ensures Valid() && Prefix(old(trace), trace) && old(loopDetection) <= loopDetection
      ensures var w := TypeWalk(env, handler, old(loopDetection), t, reference);
              trace == old(trace) + w.offers && loopDetection == w.entered
      decreases |env.Keys - loopDetection|, TypeSize(t) + 1, 0
    {
      var fnTypeDef := Typedef("", reference.pos, t);
      var ok := Ask(fnTypeDef, reference);
      ghost var first := [Offer(fnTypeDef, reference, ok)];
      PrefixAppend(old(trace), first);
      if ok {
        KnownParentGrows(old(trace), trace, root, reference);
        VisitType(t.ret, reference);
        ghost var r1 := TypeWalk(env, handler, old(loopDetection), t.ret, reference).offers;
        PrefixTrans(old(trace), old(trace) + first, trace);
        KnownParentGrows(old(trace), trace, root, reference);
        Monotone(env.Keys, old(loopDetection), loopDetection);
        ghost var v1 := loopDetection;
        VisitTypes(t.args, reference);
        ghost var r2 := TypesWalk(env, handler, v1, t.args, reference).offers;
        Regroup(old(trace), first, r1);
        Regroup(old(trace), first + r1, r2);
        PrefixAppend(old(trace), first + r1 + r2);
      }
    }

    /** The types of a list, in order, each referenced from `reference`. */
    method VisitTypes(ts: seq<Type>, reference: Decl)
      requires Valid() && KnownParent(trace, |trace|, root, reference)
      requires forall i :: 0 <= i < |ts| ==> ClosedType(env.Keys, ts[i])
      modifies this
      ensures Valid() && Prefix(old(trace), trace) && old(loopDetection) <= loopDetection
      ensures var w := TypesWalk(env, handler, old(loopDetection), ts, reference);
              trace == old(trace) + w.offers && loopDetection == w.entered
      decreases |env.Keys - loopDetection|, TypesSize(ts) + 1, 2
    {
      var i := 0;
      ghost var done := Walked([], loopDetection);
      while i < |ts|
        invariant 0 <= i <= |ts|
        invariant Valid()
        invariant done == TypesWalk(env, handler, old(loopDetection), ts[..i], reference)
        invariant trace == old(trace) + done.offers && loopDetection == done.entered
      {
        PrefixAppend(old(trace), done.offers);
        KnownParentGrows(old(trace), trace, root, reference);
        Monotone(env.Keys, old(loopDetection), loopDetection);
        TypesSizeBound(ts, i);
        TypesWalkStep(env, handler, old(loopDetection), ts, i, reference);
        VisitType(ts[i], reference);
        ghost var step := TypeWalk(env, handler, done.entered, ts[i], reference);
        Regroup(old(trace), done.offers, step.offers);
        done := Walked(done.offers + step.offers, step.entered);
        i := i + 1;
      }
      assert ts[..|ts|] == ts;
      PrefixAppend(old(trace), done.offers);
    }

    /** declWalker: the walk of a declaration whose referencing declaration is `parent`. */
    method VisitDecl(d: Decl, parent: Decl)
      requires Valid() && ClosedDecl(env.Keys, d) && KnownParent(trace, |trace|, root, parent)
      modifies this
      ensures Valid() && Prefix(old(trace), trace) && old(loopDetection) <= loopDetection
      ensures var w := DeclWalk(env, handler, old(loopDetection), d, parent);
              trace == old(trace) + w.offers && loopDetection == w.entered
      decreases |env.Keys - loopDetection|, DeclRank(d), 3
    {
      if d.Scoped? && d.id in loopDetection {
        assert trace == old(trace) + [];
        return;
      }
      VisitOffered(d, parent);
    }

    /** A declaration not yet entered: ask the handler, record an accepted scope, walk what it accepts. */
    method VisitOffered(d: Decl, parent: Decl)
      requires Valid() && ClosedDecl(env.Keys, d) && KnownParent(trace, |trace|, root, parent)
      requires d.Scoped? ==> d.id !in loopDetection
      modifies this
      ensures Valid() && Prefix(old(trace), trace) && old(loopDetection) <= loopDetection
      ensures var w := OfferedWalk(env, handler, old(loopDetection), d, parent);
              trace == old(trace) + w.offers && loopDetection == w.entered
      decreases |env.Keys - loopDetection|, DeclRank(d), 2
    {
      var ok := Ask(d, parent);
      ghost var first := trace;
      if !ok {
        PrefixAppend(old(trace), trace[|old(trace)|..]);
        return;
      }
      if d.Scoped? {
        Enter(d.id);
        assert loopDetection - {d.id} == old(loopDetection);
      }
      assert first[|old(trace)|] == Offer(d, parent, true);
      assert KnownParent(trace, |trace|, root, d);
      ghost var v1 := loopDetection;
      VisitAccepted(d);
      ghost var rest := AcceptedWalk(env, handler, v1, d).offers;
      Regroup(old(trace), [Offer(d, parent, true)], rest);
      PrefixAppend(old(trace), [Offer(d, parent, true)] + rest);
    }

    /** What an accepted declaration walks: a scope its members, anything else its types. */
    method VisitAccepted(d: Decl)
      requires Valid() && ClosedDecl(env.Keys, d) && KnownParent(trace, |trace|, root, d)
      requires d.Scoped? ==> d.id in loopDetection
      modifies this
      ensures Valid() && Prefix(old(trace), trace) && old(loopDetection) <= loopDetection
      ensures var w := AcceptedWalk(env, handler, old(loopDetection), d);
              trace == old(trace) + w.offers && loopDetection == w.entered
      decreases |env.Keys - (if d.Scoped? then loopDetection - {d.id} else loopDetection)|, DeclRank(d), 1
    {
      if !d.Scoped? {
        Monotone(env.Keys, old(loopDetection), loopDetection);
      }
      match d
      case Scoped(_, _, _, _, _, _, _) => VisitMembers(d);
      case Function(_, _, _, _, _) => VisitFunction(d);
      case Variable(_, _, _, vt, _) => VisitType(vt, d);
      case Constant(_, _, ct, _, _) => VisitType(ct, d);
      case Typedef(_, _, tt) => VisitType(tt, d);
    }

    /** visitScoped once the scope is accepted and recorded: its members, under the scope. */
    method VisitMembers(d: Decl)
      requires d.Scoped? && Valid() && ClosedDecl(env.Keys, d) && KnownParent(trace, |trace|, root, d)
      requires d.id in loopDetection
      modifies this
      ensures Valid() && Prefix(old(trace), trace) && old(loopDetection) <= loopDetection
      ensures var w := DeclsWalk(env, handler, old(loopDetection), d.members, d);
              trace == old(trace) + w.offers && loopDetection == w.entered
      decreases |env.Keys - (loopDetection - {d.id})|, DeclRank(d), 0
    {
      Shrinks(env.Keys, loopDetection - {d.id}, loopDetection, d.id);
      VisitDecls(d.members, d);
    }

    /** visitFunction once the function is accepted: its return type, then its parameters, under the function. */
    method VisitFunction(d: Decl)
      requires d.Function? && Valid() && ClosedDecl(env.Keys, d) && KnownParent(trace, |trace|, root, d)
      modifies this
      ensures Valid() && Prefix(old(trace), trace) && old(loopDetection) <= loopDetection
      ensures var w := FunctionWalk(env, handler, old(loopDetection), d);
              trace == old(trace) + w.offers && loopDetection == w.entered
      decreases |env.Keys - loopDetection|, DeclRank(d), 0
    {
      VisitType(d.ftype.ret, d);
      ghost var r1 := TypeWalk(env, handler, old(loopDetection), d.ftype.ret, d).offers;
      KnownParentGrows(old(trace), trace, root, d);
      Monotone(env.Keys, old(loopDetection), loopDetection);
      ghost var v1 := loopDetection;
      VisitDecls(d.params, d);
      ghost var r2 := DeclsWalk(env, handler, v1, d.params, d).offers;
      Regroup(old(trace), r1, r2);
      PrefixAppend(old(trace), r1 + r2);
    }

    /** The declarations of a list, in order, each under `parent`. */
    method VisitDecls(ds: seq<Decl>, parent: Decl)
      requires Valid() && KnownParent(trace, |trace|, root, parent)
      requires forall i :: 0 <= i < |ds| ==> ClosedDecl(env.Keys, ds[i])
      modifies this
      ensures Valid() && Prefix(old(trace), trace) && old(loopDetection) <= loopDetection
      ensures var w := DeclsWalk(env, handler, old(loopDetection), ds, parent);
              trace == old(trace) + w.offers && loopDetection == w.entered
      decreases |env.Keys - loopDetection|, DeclsSize(ds) + 1, 4
    {
      var i := 0;
      ghost var done := Walked([], loopDetection);
      while i < |ds|
        invariant 0 <= i <= |ds|
        invariant Valid()
        invariant done == DeclsWalk(env, handler, old(loopDetection), ds[..i], parent)
        invariant trace == old(trace) + done.offers && loopDetection == done.entered
      {
        PrefixAppend(old(trace), done.offers);
        KnownParentGrows(old(trace), trace, root, parent);
        Monotone(env.Keys, old(loopDetection), loopDetection);
        DeclsSizeBound(ds, i);
        DeclsWalkStep(env, handler, old(loopDetection), ds, i, parent);
        VisitDecl(ds[i], parent);
        ghost var step := DeclWalk(env, handler, done.entered, ds[i], parent);
        Regroup(old(trace), done.offers, step.offers);
        done := Walked(done.offers + step.offers, step.entered);
        i := i + 1;
      }
      assert ds[..|ds|] == ds;
      PrefixAppend(old(trace), done.offers);
    }
  }

  /** walkType(type, reference, handler): a fresh walker over `type`; it makes exactly the reference walk's offers. */
  method WalkType(env: Scopes, handler: (Decl, Decl) -> bool, t: Type, reference: Decl) returns (w: Walker)
    requires ValidScopes(env) && ClosedType(env.Keys, t)
    ensures w.Valid() && w.env == env && w.handler == handler && w.root == reference
    ensures w.trace == TypeWalk(env, handler, {}, t, reference).offers
    ensures w.loopDetection == TypeWalk(env, handler, {}, t, reference).entered
  {
    w := new Walker(env, handler, reference);
    w.VisitType(t, reference);
  }

  /** walkDeclaration(decl, handler): a fresh walker over `decl`, referenced from a new toplevel scope. */
  method WalkDeclaration(env: Scopes, handler: (Decl, Decl) -> bool, decl: Decl, topId: ScopeId) returns (w: Walker)
    requires ValidScopes(env) && ClosedDecl(env.Keys, decl)
    ensures w.Valid() && w.env == env && w.handler == handler && w.root == Toplevel(topId, decl)
    ensures w.trace == DeclWalk(env, handler, {}, decl, w.root).offers
    ensures w.loopDetection == DeclWalk(env, handler, {}, decl, w.root).entered
  {
    var top := Toplevel(topId, decl);
    w := new Walker(env, handler, top);
    w.VisitDecl(decl, top);
  }
}
