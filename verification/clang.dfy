/**
 * jextract's model of a C header: `Type` and `Declaration` trees.
 *
 * In jextract a `Type.Declared` holds a reference to the scoped declaration it names,
 * so the object graph may be cyclic (a struct with a pointer to itself). Here a
 * declared type holds the identifier of the scope, resolved through a `Scopes` table.
 * Where the source compares objects by identity (`==` on positions, paths, layouts,
 * constant values, element counts), the value carries an identity token.
 */
module Clang {
  import opened Wrappers
  import opened Layouts
  import opened FilePaths

  type ScopeId = nat

  /** Type.Primitive.Kind */
  datatype PrimKind =
    | VoidKind | Bool | Char | Char16 | Char32 | Short | Int | Long | LongLong | Int128
    | Float | Double | LongDouble | Float128 | HalfFloat | WChar

  /** Type.Delegated.Kind (PTR is the pointer kind) */
  datatype DelegatedKind = TYPEDEF | PTR | SIGNED | UNSIGNED | ATOMIC | VOLATILE | COMPLEX

  /** Type.Array.Kind */
  datatype ArrayKind = FIXED | INCOMPLETE | VECTOR

  /** Declaration.Scoped.Kind */
  datatype ScopeKind = TOPLEVEL | STRUCT | UNION | ENUM | BITFIELDS | NAMESPACE | CLASS

  /** Declaration.Variable.Kind */
  datatype VarKind = GLOBAL | FIELD | BITFIELD | PARAMETER

  datatype Type =
    /** `layout` is `kind().layout()`: absent for void */
    | Primitive(kind: PrimKind, layout: Option<MemoryLayout>)
    /** `name` is the typedef name; only TYPEDEF delegates have one */
    | Delegated(dkind: DelegatedKind, name: string, inner: Type)
    | FunctionType(varargs: bool, args: seq<Type>, ret: Type)
    | Declared(scope: ScopeId)
    /** `countId` is the identity of the object holding the element count */
    | Array(akind: ArrayKind, count: Option<nat>, countId: nat, elem: Type)

  const VoidType: Type := Primitive(VoidKind, None)

  type FnType = t: Type | t.FunctionType? witness FunctionType(false, [], VoidType)

  /** Source position; `posId` and `pathId` are the identities of the position and path objects. */
  datatype Position = Position(posId: nat, path: Option<Path>, pathId: nat, line: int, col: int)

  const NoPosition: Position := Position(0, None, 0, -1, -1)

  /** The value of a constant: a Long, a Double (kept as its text) or a String. */
  datatype ConstValue = LongValue(v: int) | DoubleValue(text: string) | StringValue(s: string)

  datatype Decl =
    /** `layoutId` is the identity of the Optional<MemoryLayout> object `layout()` returns */
    | Scoped(id: ScopeId, skind: ScopeKind, name: string, pos: Position, members: seq<Decl>,
             layout: Option<MemoryLayout>, layoutId: nat)
    /** `asmLabel` is the value of the `AsmLabelAttr` attribute, when present */
    | Function(name: string, pos: Position, ftype: FnType, params: seq<Decl>, asmLabel: Option<seq<string>>)
    | Variable(vkind: VarKind, name: string, pos: Position, vtype: Type, asmLabel: Option<seq<string>>)
    /** `valueId` is the identity of the boxed value object */
    | Constant(name: string, pos: Position, ctype: Type, value: ConstValue, valueId: nat)
    | Typedef(name: string, pos: Position, ttype: Type)

  /** The scoped declarations of a parse, by identifier. */
  type Scopes = map<ScopeId, Decl>

  // ---- sizes, used as termination measures ----

  function TypeSize(t: Type): nat
  {
    match t
    case Primitive(_, _) => 1
    case Delegated(_, _, inner) => 2 + TypeSize(inner)
    case FunctionType(_, args, ret) => 1 + TypeSize(ret) + TypesSize(args)
    case Declared(_) => 1
    case Array(_, _, _, e) => 1 + TypeSize(e)
  }

  function TypesSize(ts: seq<Type>): nat
  {
    if ts == [] then 0 else TypeSize(ts[0]) + TypesSize(ts[1..])
  }

  function DeclSize(d: Decl): nat
  {
    match d
    case Scoped(_, _, _, _, ms, _, _) => 1 + DeclsSize(ms)
    case Function(_, _, ft, ps, _) => 1 + TypeSize(ft) + DeclsSize(ps)
    case Variable(_, _, _, t, _) => 1 + TypeSize(t)
    case Constant(_, _, t, _, _) => 1 + TypeSize(t)
    case Typedef(_, _, t) => 1 + TypeSize(t)
  }

  function DeclsSize(ds: seq<Decl>): nat
  {
    if ds == [] then 0 else DeclSize(ds[0]) + DeclsSize(ds[1..])
  }

  lemma {:induction false} TypesSizeBound(ts: seq<Type>, i: nat)
    requires i < |ts|
    ensures TypeSize(ts[i]) <= TypesSize(ts)
  {
    if i > 0 { TypesSizeBound(ts[1..], i - 1); }
  }

  lemma {:induction false} DeclsSizeBound(ds: seq<Decl>, i: nat)
    requires i < |ds|
    ensures DeclSize(ds[i]) <= DeclsSize(ds)
  {
    if i > 0 { DeclsSizeBound(ds[1..], i - 1); }
  }

  lemma {:induction false} TypesSizeSnoc(ts: seq<Type>)
    requires ts != []
    ensures TypesSize(ts) == TypesSize(ts[..|ts| - 1]) + TypeSize(ts[|ts| - 1])
  {
    if |ts| > 1 {
      assert ts[1..][..|ts| - 2] == ts[..|ts| - 1][1..];
      TypesSizeSnoc(ts[1..]);
    }
  }

  lemma {:induction false} DeclsSizeSnoc(ds: seq<Decl>)
    requires ds != []
    ensures DeclsSize(ds) == DeclsSize(ds[..|ds| - 1]) + DeclSize(ds[|ds| - 1])
  {
    if |ds| > 1 {
      assert ds[1..][..|ds| - 2] == ds[..|ds| - 1][1..];
      DeclsSizeSnoc(ds[1..]);
    }
  }

  // ---- closedness: every scope a tree mentions is in the table ----

  predicate ClosedType(ids: set<ScopeId>, t: Type)
  {
    match t
    case Primitive(_, _) => true
    case Delegated(_, _, inner) => ClosedType(ids, inner)
    case FunctionType(_, args, ret) =>
      ClosedType(ids, ret) && forall i :: 0 <= i < |args| ==> ClosedType(ids, args[i])
    case Declared(k) => k in ids
    case Array(_, _, _, e) => ClosedType(ids, e)
  }

  predicate ClosedDecl(ids: set<ScopeId>, d: Decl)
  {
    match d
    case Scoped(k, _, _, _, ms, _, _) =>
      k in ids && forall i :: 0 <= i < |ms| ==> ClosedDecl(ids, ms[i])
    case Function(_, _, ft, ps, _) =>
      ClosedType(ids, ft) && forall i :: 0 <= i < |ps| ==> ClosedDecl(ids, ps[i])
    case Variable(_, _, _, t, _) => ClosedType(ids, t)
    case Constant(_, _, t, _, _) => ClosedType(ids, t)
    case Typedef(_, _, t) => ClosedType(ids, t)
  }

  /** Every entry is the scoped declaration with that identifier, and mentions only known scopes. */
  predicate ValidScopes(env: Scopes)
  {
    forall k | k in env :: env[k].Scoped? && env[k].id == k && ClosedDecl(env.Keys, env[k])
  }

  /** The declarations a type names directly (not through the members of a named scope). */
  function DeclaredIn(t: Type): set<ScopeId>
  {
    match t
    case Primitive(_, _) => {}
    case Delegated(_, _, inner) => DeclaredIn(inner)
    case FunctionType(_, args, ret) => DeclaredIn(ret) + DeclaredInAll(args)
    case Declared(k) => {k}
    case Array(_, _, _, e) => DeclaredIn(e)
  }

  function DeclaredInAll(ts: seq<Type>): set<ScopeId>
  {
    if ts == [] then {} else DeclaredIn(ts[0]) + DeclaredInAll(ts[1..])
  }
}
