/**
 * The java.lang.invoke combinators the fast path builds its chain with, modelled on
 * method-handle shapes. A handle is its type plus how it was built: the handle it
 * started from and the adapters wrapped around it, innermost first. Each combinator
 * performs the argument checks of java.lang.invoke.MethodHandles and throws what
 * they throw.
 */
module MethodHandles {
  import opened Wrappers
  import opened JavaTypes

  /** Where a chain starts: the generic invoker, the raw native call, or a named library handle. */
  datatype Origin = Fallback | Native | Leaf(name: string)

  /** One adapter of a chain, with the handle or reordering it was built with. */
  datatype Adapter =
    | Filter(pos: int, filter: Handle)
    | Permute(reorder: seq<int>)
    | Collect(pos: int, filter: Handle)
    | FilterReturn(filter: Handle)
    | Finally(cleanup: Handle)

  /** A method handle: its origin and the type it started with, its current type, and its adapters. */
  datatype Handle = Handle(origin: Origin, base: MethodType, t: MethodType, adapters: seq<Adapter>)

  /** A handle with no adapters. */
  function Plain(origin: Origin, t: MethodType): (h: Handle)
    ensures h.t == h.base == t && h.adapters == []
  {
    Handle(origin, t, t, [])
  }

  /** The handle `h` with its type replaced and one more adapter. */
  function Wrap(h: Handle, t: MethodType, a: Adapter): (r: Handle)
    ensures r.origin == h.origin && r.base == h.base && r.t == t && r.adapters == h.adapters + [a]
  {
    Handle(h.origin, h.base, t, h.adapters + [a])
  }

  /**
   * filterArguments(target, pos, filter): the filter's result feeds parameter
   * `pos`, which then takes the filter's one parameter. Too few parameters for the
   * position is an IllegalArgumentException, a negative position an
   * IndexOutOfBoundsException, and a filter that does not fit an
   * IllegalArgumentException.
   */
  function FilterArguments(target: Handle, pos: int, filter: Handle): (r: Result<Handle>)
    ensures r.Ok? <==> 0 <= pos < |target.t.params| && |filter.t.params| == 1 && filter.t.ret == target.t.params[pos]
    ensures r.Ok? ==> r.value == Wrap(target, MethodType(target.t.ret, target.t.params[pos := filter.t.params[0]]), Filter(pos, filter))
    ensures r.Err? && |filter.t.params| == 1 && pos < |target.t.params| && pos < 0 ==> r.error == IndexOutOfBoundsException
    ensures r.Err? && !(|filter.t.params| == 1 && pos < |target.t.params| && pos < 0) ==> r.error == IllegalArgumentException
  {
    var ps := target.t.params;
    if pos + 1 > |ps| then Err(IllegalArgumentException)
    else if |filter.t.params| != 1 then Err(IllegalArgumentException)
    else if pos < 0 then Err(IndexOutOfBoundsException)
    else if filter.t.ret != ps[pos] then Err(IllegalArgumentException)
    else Ok(Wrap(target, MethodType(target.t.ret, ps[pos := filter.t.params[0]]), Filter(pos, filter)))
  }

  /** Whether `reorder` maps every old parameter to a new parameter of the same class. */
  predicate Reorders(oldType: MethodType, newType: MethodType, reorder: seq<int>)
  {
    |reorder| == |oldType.params|
    && forall j :: 0 <= j < |reorder| ==>
         0 <= reorder[j] < |newType.params| && newType.params[reorder[j]] == oldType.params[j]
  }

  /**
   * permuteArguments(target, newType, reorder): a handle of type `newType` whose
   * parameter reorder[j] becomes the target's parameter j. Every mismatch is an
   * IllegalArgumentException.
   */
  function PermuteArguments(target: Handle, newType: MethodType, reorder: seq<int>): (r: Result<Handle>)
    ensures r.Ok? <==> newType.ret == target.t.ret && Reorders(target.t, newType, reorder)
    ensures r.Ok? ==> r.value == Wrap(target, newType, Permute(reorder))
    ensures r.Err? ==> r.error == IllegalArgumentException
  {
    if newType.ret != target.t.ret || !Reorders(target.t, newType, reorder) then Err(IllegalArgumentException)
    else Ok(Wrap(target, newType, Permute(reorder)))
  }

  /**
   * collectArguments(target, pos, filter): a void filter's parameters are inserted
   * at `pos`; any other filter's result replaces parameter `pos`, which must be of
   * the filter's return class. A position outside the parameter list is an
   * IndexOutOfBoundsException, a class mismatch an IllegalArgumentException.
   */
  function CollectArguments(target: Handle, pos: int, filter: Handle): (r: Result<Handle>)
    ensures filter.t.ret == Void ==>
              (r.Ok? <==> 0 <= pos <= |target.t.params|)
              && (r.Ok? ==> r.value.t == MethodType(target.t.ret, target.t.params[..pos] + filter.t.params + target.t.params[pos..]))
    ensures filter.t.ret != Void ==>
              (r.Ok? <==> 0 <= pos < |target.t.params| && filter.t.ret == target.t.params[pos])
              && (r.Ok? ==> r.value.t == MethodType(target.t.ret, target.t.params[..pos] + filter.t.params + target.t.params[pos + 1..]))
    ensures r.Ok? ==> r.value == Wrap(target, r.value.t, Collect(pos, filter))
    ensures r.Err? ==> r.error == (if 0 <= pos < |target.t.params| || (filter.t.ret == Void && pos == |target.t.params|)
                                  then IllegalArgumentException else IndexOutOfBoundsException)
  {
    var ps := target.t.params;
    if filter.t.ret == Void then
      if pos < 0 || pos > |ps| then Err(IndexOutOfBoundsException)
      else Ok(Wrap(target, MethodType(target.t.ret, ps[..pos] + filter.t.params + ps[pos..]), Collect(pos, filter)))
    else if pos < 0 || pos >= |ps| then Err(IndexOutOfBoundsException)
    else if filter.t.ret != ps[pos] then Err(IllegalArgumentException)
    else Ok(Wrap(target, MethodType(target.t.ret, ps[..pos] + filter.t.params + ps[pos + 1..]), Collect(pos, filter)))
  }

  /**
   * filterReturnValue(target, filter): the target's result is passed to the
   * filter, which takes no parameter after a void target and exactly the result's
   * class otherwise.
   */
  function FilterReturnValue(target: Handle, filter: Handle): (r: Result<Handle>)
    ensures r.Ok? <==> (target.t.ret == Void && filter.t.params == []) || filter.t.params == [target.t.ret]
    ensures r.Ok? ==> r.value == Wrap(target, MethodType(filter.t.ret, target.t.params), FilterReturn(filter))
    ensures r.Err? ==> r.error == IllegalArgumentException
  {
    var fps := filter.t.params;
    var bad := if |fps| == 0 then target.t.ret != Void else fps[0] != target.t.ret || |fps| != 1;
    if bad then Err(IllegalArgumentException)
    else Ok(Wrap(target, MethodType(filter.t.ret, target.t.params), FilterReturn(filter)))
  }

  /**
   * tryFinally(target, cleanup): the cleanup runs after the target however it
   * exits. It returns the target's class and takes the Throwable, then the
   * target's result unless that is void, then a prefix of the target's parameters.
   */
  function TryFinally(target: Handle, cleanup: Handle): (r: Result<Handle>)
    ensures r.Ok? <==>
              var cps := cleanup.t.params;
              var k := if target.t.ret == Void then 1 else 2;
              cleanup.t.ret == target.t.ret && |cps| >= k && cps[0] == ThrowableClass
              && (k == 2 ==> cps[1] == target.t.ret)
              && cps[k..] <= target.t.params
    ensures r.Ok? ==> r.value == Wrap(target, target.t, Finally(cleanup))
    ensures r.Err? && cleanup.t.ret != target.t.ret ==> r.error == IllegalArgumentException
  {
    var cps := cleanup.t.params;
    var rtype := target.t.ret;
    if rtype != cleanup.t.ret then Err(IllegalArgumentException)
    else if |cps| == 0 then Err(IndexOutOfBoundsException)
    else if cps[0] != ThrowableClass then Err(IllegalArgumentException)
    else if rtype != Void && |cps| < 2 then Err(IndexOutOfBoundsException)
    else if rtype != Void && cps[1] != rtype then Err(IllegalArgumentException)
    else if !(cps[if rtype == Void then 1 else 2..] <= target.t.params) then Err(IllegalArgumentException)
    else Ok(Wrap(target, target.t, Finally(cleanup)))
  }

  /**
   * insertArguments(target, pos, n values): the `n` parameters from `pos` on are
   * bound to the values and disappear from the type. The values are taken to be
   * of the parameters' classes.
   */
  function InsertArguments(target: Handle, pos: int, n: nat): (r: Result<Handle>)
    ensures r.Ok? <==> 0 <= pos && pos + n <= |target.t.params|
    ensures r.Ok? ==> r.value.t == MethodType(target.t.ret, target.t.params[..pos] + target.t.params[pos + n..])
                      && r.value.origin == target.origin && r.value.base == target.base
    ensures r.Err? ==> r.error == IllegalArgumentException
  {
    var ps := target.t.params;
    if |ps| - n < 0 || pos < 0 || pos > |ps| - n then Err(IllegalArgumentException)
    else Ok(Handle(target.origin, target.base, MethodType(target.t.ret, ps[..pos] + ps[pos + n..]), target.adapters))
  }

  /** dropArguments(target, pos, types): parameters of classes `types`, ignored, inserted at `pos`. */
  function DropArguments(target: Handle, pos: int, types: seq<JClass>): (r: Result<Handle>)
    ensures r.Ok? <==> 0 <= pos <= |target.t.params|
    ensures r.Ok? ==> r.value.t == MethodType(target.t.ret, target.t.params[..pos] + types + target.t.params[pos..])
    ensures r.Err? ==> r.error == IllegalArgumentException
  {
    var ps := target.t.params;
    if pos < 0 || pos > |ps| then Err(IllegalArgumentException)
    else Ok(Handle(target.origin, target.base, MethodType(target.t.ret, ps[..pos] + types + ps[pos..]), target.adapters))
  }

  /** identity(c): returns its one argument; there is no identity for void. */
  function Identity(c: JClass): (r: Result<Handle>)
    ensures r.Ok? <==> c != Void
    ensures r.Ok? ==> r.value == Plain(Leaf("identity"), MethodType(c, [c]))
    ensures r.Err? ==> r.error == IllegalArgumentException
  {
    if c == Void then Err(IllegalArgumentException) else Ok(Plain(Leaf("identity"), MethodType(c, [c])))
  }
}
