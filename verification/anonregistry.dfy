/**
 * AnonymousRegistry: names for declarations that have none.
 *
 * A declaration with a non-empty name is called by it. An anonymous one gets a name
 * derived from its parent the first time it is asked for, and the registry keeps it:
 * under the toplevel scope the name is a suffix `_<kind>_<line>_<col>`; under a global
 * variable or a typedef it is the parent's name; under anything else it is the
 * parent's name followed by the suffix. A typedef naming a record registers its own
 * name for an anonymous record that has none registered yet.
 *
 * The registry is a `HashMap<Declaration, String>`; declarations are compared as values.
 */
module AnonymousNames {
  import opened Wrappers
  import opened Clang
  import opened Decimal

  type Registry = map<Decl, string>

  /** getName(d): the declaration's own name, or else the name registered for it. */
  function Lookup(reg: Registry, d: Decl): Option<string>
  {
    if d.name != "" then Some(d.name) else if d in reg then Some(reg[d]) else None
  }

  /** mustHaveName(d) */
  function MustHaveName(reg: Registry, d: Decl): Result<string>
  {
    match Lookup(reg, d)
    case Some(n) => Ok(n)
    case None => Err(IllegalStateException)
  }

  /** The kind part of getSuffix; kinds that are never anonymous are refused. */
  function KindTag(d: Decl): (r: Result<string>)
    ensures r.Ok? ==> r.value != [] && '_' !in r.value
  {
    match d
    case Scoped(_, k, _, _, _, _, _) =>
      (match k
       case STRUCT => Ok("struct")
       case UNION => Ok("union")
       case ENUM => Ok("enum")
       case BITFIELDS => Ok("bits")
       case _ => Err(IllegalArgumentException))
    case Typedef(_, _, _) => Ok("fn")
    case Variable(k, _, _, _, _) => if k == PARAMETER then Ok("arg") else Err(IllegalArgumentException)
    case _ => Err(IllegalArgumentException)
  }

  /** The text of a suffix. */
  function SuffixText(tag: string, line: int, col: int): string
  {
    "_" + tag + "_" + IntToString(line) + "_" + IntToString(col)
  }

  /** getSuffix(decl) */
  function Suffix(d: Decl): Result<string>
  {
    var tag :- KindTag(d);
    Ok(SuffixText(tag, d.pos.line, d.pos.col))
  }

  /** visitDeclaration of the naming scheme: the parent's name, then the child's suffix. */
  function ParentAndSuffix(reg: Registry, parent: Decl, child: Decl): Result<string>
  {
    var p :- MustHaveName(reg, parent);
    var s :- Suffix(child);
    Ok(p + s)
  }

  /** parent.accept(namingScheme, child) */
  function NamingScheme(reg: Registry, parent: Decl, child: Decl): Result<string>
  {
    match parent
    case Scoped(_, k, _, _, _, _, _) =>
      if k == TOPLEVEL then Suffix(child) else ParentAndSuffix(reg, parent, child)
    case Variable(k, _, _, _, _) =>
      if k == GLOBAL then MustHaveName(reg, parent) else ParentAndSuffix(reg, parent, child)
    case Typedef(_, _, _) => MustHaveName(reg, parent)
    case _ => ParentAndSuffix(reg, parent, child)
  }

  /** The registry after registerTypeVar(d, name). */
  function AfterRegisterTypeVar(reg: Registry, env: Scopes, d: Decl, name: string): Registry
    requires ClosedDecl(env.Keys, d)
  {
    if d.Typedef? && d.ttype.Declared? then
      var decl := env[d.ttype.scope];
      if decl.name != "" || decl in reg then reg else reg[decl := name]
    else reg
  }

  /** The name getName(d, parent) returns, and the registry after it; `None` is a null parent. */
  function DeriveName(reg: Registry, env: Scopes, d: Decl, parent: Option<Decl>): (Result<string>, Registry)
    requires ClosedDecl(env.Keys, d)
  {
    if parent.None? then (MustHaveName(reg, d), reg)
    else
      var given :=
        if d.name != "" then (Ok(d.name), reg)
        else if d in reg then (Ok(reg[d]), reg)
        else match NamingScheme(reg, parent.value, d)
             case Ok(n) => (Ok(n), reg[d := n])
             case Err(e) => (Err(e), reg);
      if given.0.Err? then given else (given.0, AfterRegisterTypeVar(given.1, env, d, given.0.value))
  }

  class AnonymousRegistry {
    var nameRegistry: Registry

    constructor ()
      ensures nameRegistry == map[]
    {
      nameRegistry := map[];
    }

    /** registerTypeVar(d, name) */
    method RegisterTypeVar(env: Scopes, d: Decl, name: string)
      requires ClosedDecl(env.Keys, d)
      modifies this
      ensures nameRegistry == AfterRegisterTypeVar(old(nameRegistry), env, d, name)
    {
      if d.Typedef? {
        var t := d.ttype;
        if t.Declared? {
          var decl := env[t.scope];
          if decl.name == "" && decl !in nameRegistry {
            nameRegistry := nameRegistry[decl := name];
          }
        }
      }
    }

    /** getName(d, parent); `None` is a null parent. */
    method GetName(env: Scopes, d: Decl, parent: Option<Decl>) returns (r: Result<string>)
      requires ClosedDecl(env.Keys, d)
      modifies this
      ensures (r, nameRegistry) == DeriveName(old(nameRegistry), env, d, parent)
    {
      if parent.None? {
        return MustHaveName(nameRegistry, d);
      }
      var given: string;
      if d.name != "" {
        given := d.name;
      } else if d in nameRegistry {
        given := nameRegistry[d];
      } else {
        var derived := NamingScheme(nameRegistry, parent.value, d);
        if derived.Err? {
          return derived;
        }
        given := derived.value;
        nameRegistry := nameRegistry[d := given];
      }
      RegisterTypeVar(env, d, given);
      r := Ok(given);
    }
  }

  // ---- properties ----

  /** A declaration with a name is called by it, whatever the registry holds and whatever the parent. */
  lemma NamedKeepsName(reg: Registry, env: Scopes, d: Decl, parent: Option<Decl>)
    requires ClosedDecl(env.Keys, d) && d.name != ""
    ensures DeriveName(reg, env, d, parent).0 == Ok(d.name)
    ensures parent.None? || !d.Typedef? ==> DeriveName(reg, env, d, parent).1 == reg
  {
  }

  /** With a null parent the registry is only read, and a nameless unregistered declaration is an error. */
  lemma NullParentNeedsName(reg: Registry, env: Scopes, d: Decl)
    requires ClosedDecl(env.Keys, d)
    ensures DeriveName(reg, env, d, None).1 == reg
    ensures DeriveName(reg, env, d, None).0 == Err(IllegalStateException) <==> d.name == "" && d !in reg
  {
  }

  /** getName never removes or changes a registered name. */
  lemma RegistryOnlyGrows(reg: Registry, env: Scopes, d: Decl, parent: Option<Decl>)
    requires ClosedDecl(env.Keys, d)
    ensures var reg' := DeriveName(reg, env, d, parent).1;
            forall k | k in reg :: k in reg' && reg'[k] == reg[k]
  {
  }

  /**
   * Once getName has given a name, asking again (with any parent) gives the same
   * name and leaves the registry as it is.
   */
  lemma NameMemoised(reg: Registry, env: Scopes, d: Decl, p: Decl, q: Option<Decl>)
    requires ClosedDecl(env.Keys, d)
    requires DeriveName(reg, env, d, Some(p)).0.Ok?
    ensures var (n, reg') := DeriveName(reg, env, d, Some(p));
            DeriveName(reg', env, d, q) == (n, reg')
  {
    var (n, reg') := DeriveName(reg, env, d, Some(p));
    var name := n.value;
    var reg1 := if d.name != "" || d in reg then reg else reg[d := name];
    assert reg' == AfterRegisterTypeVar(reg1, env, d, name);
    assert d.name == "" ==> d in reg' && reg'[d] == name;
    assert AfterRegisterTypeVar(reg', env, d, name) == reg';
  }

  /** A typedef of a declared record gives an anonymous, unregistered record the typedef's name, and nothing else. */
  lemma TypedefNamesRecord(reg: Registry, env: Scopes, d: Decl, p: Decl)
    requires ClosedDecl(env.Keys, d) && d.Typedef? && d.name != "" && d.ttype.Declared?
    ensures var decl := env[d.ttype.scope];
            var reg' := DeriveName(reg, env, d, Some(p)).1;
            (decl.name == "" && decl !in reg ==> reg' == reg[decl := d.name])
            && (decl.name != "" || decl in reg ==> reg' == reg)
  {
  }

  lemma UnderscoreAfter(x: string, y: string)
    ensures (x + "_" + y)[|x|] == '_'
  {
  }

  lemma CharBefore(x: string, y: string, i: int)
    ensures 0 <= i < |x| ==> (x + "_" + y)[i] == x[i] && x[i] in x
  {
  }

  lemma SplitAtUnderscore(x1: string, y1: string, x2: string, y2: string)
    requires '_' !in x1 && '_' !in x2 && x1 + "_" + y1 == x2 + "_" + y2
    ensures x1 == x2 && y1 == y2
  {
    var s := x1 + "_" + y1;
    if |x1| < |x2| {
      UnderscoreAfter(x1, y1);
      CharBefore(x2, y2, |x1|);
      assert false;
    } else if |x2| < |x1| {
      UnderscoreAfter(x2, y2);
      CharBefore(x1, y1, |x2|);
      assert false;
    }
    assert x1 == s[..|x1|] == x2;
    assert y1 == s[|x1| + 1..] == y2;
  }

  /** The suffix text regrouped: a leading '_', then the tag and the rest. */
  lemma UnderscoreJoin(t: string, a: string, b: string)
    ensures "_" + t + "_" + a + "_" + b == "_" + (t + "_" + (a + "_" + b))
  {
  }

  /** The text of a suffix determines its tag, line and column. */
  lemma SuffixTextInjective(t1: string, l1: int, c1: int, t2: string, l2: int, c2: int)
    requires '_' !in t1 && '_' !in t2 && SuffixText(t1, l1, c1) == SuffixText(t2, l2, c2)
    ensures t1 == t2 && l1 == l2 && c1 == c2
  {
    var a1, a2 := IntToString(l1), IntToString(l2);
    var b1, b2 := IntToString(c1), IntToString(c2);
    var r1, r2 := t1 + "_" + (a1 + "_" + b1), t2 + "_" + (a2 + "_" + b2);
    UnderscoreJoin(t1, a1, b1);
    UnderscoreJoin(t2, a2, b2);
    assert r1 == ("_" + r1)[1..] && r2 == ("_" + r2)[1..];
    SplitAtUnderscore(t1, a1 + "_" + b1, t2, a2 + "_" + b2);
    SplitAtUnderscore(a1, b1, a2, b2);
    IntToStringInjective(l1, l2);
    IntToStringInjective(c1, c2);
  }

  /** Two suffixes are equal only for the same kind at the same line and column. */
  lemma SuffixInjective(a: Decl, b: Decl)
    requires Suffix(a).Ok? && Suffix(a) == Suffix(b)
    ensures KindTag(a) == KindTag(b) && a.pos.line == b.pos.line && a.pos.col == b.pos.col
  {
    var ta, tb := KindTag(a).value, KindTag(b).value;
    assert Suffix(a) == Ok(SuffixText(ta, a.pos.line, a.pos.col));
    assert Suffix(b) == Ok(SuffixText(tb, b.pos.line, b.pos.col));
    SuffixTextInjective(ta, a.pos.line, a.pos.col, tb, b.pos.line, b.pos.col);
  }

  /** Under the toplevel scope, anonymous declarations at different positions get different names. */
  lemma ToplevelNamesDistinct(reg: Registry, env: Scopes, top: Decl, a: Decl, b: Decl)
    requires ClosedDecl(env.Keys, a) && ClosedDecl(env.Keys, b)
    requires top.Scoped? && top.skind == TOPLEVEL
    requires a.name == "" && b.name == "" && a !in reg && b !in reg
    requires (a.pos.line, a.pos.col) != (b.pos.line, b.pos.col)
    requires DeriveName(reg, env, a, Some(top)).0.Ok?
    ensures DeriveName(reg, env, a, Some(top)).0 != DeriveName(reg, env, b, Some(top)).0
  {
    if DeriveName(reg, env, a, Some(top)).0 == DeriveName(reg, env, b, Some(top)).0 {
      SuffixInjective(a, b);
    }
  }
}
