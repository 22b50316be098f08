/**
 * JavaSourceFactory: which declarations of a parse become bindings, deduplicated by name.
 *
 * `generate` keeps the toplevel members that pass `toBeIncluded`, collects each one's
 * dependencies (dependencies first), and visits them in that order. The visitor puts
 * functions, global variables, structs and unions, and constants into four
 * name-keyed declaration sets that keep first-insertion order, and groups every
 * visited declaration with a path under that path. The candidates for the generated
 * class are then the types, the explicitly included constants, the variables and
 * the functions, in that order.
 *
 * Include and exclude patterns are not modelled: a `PatternFilter` is given by its
 * answers.
 */
module SourceFactory {
  import opened Wrappers
  import opened FilePaths
  import opened Clang
  import opened SymbolDependencyCollector

  /** PatternFilter: whether a value is excluded, whether it is included, and whether any include pattern exists. */
  datatype PatternFilter<-T> = PatternFilter(isExcluded: T -> bool, isIncluded: T -> bool, hasIncludes: bool)

  // ---- DeclarationSet: a LinkedHashMap<String, Declaration> ----

  /** The keys in insertion order, and the map. */
  datatype Table = Table(keys: seq<string>, decls: map<string, Decl>)

  const EmptyTable := Table([], map[])

  predicate ValidTable(t: Table)
  {
    (forall i, j :: 0 <= i < j < |t.keys| ==> t.keys[i] != t.keys[j])
    && (forall k :: k in t.decls ==> k in t.keys)
    && (forall i :: 0 <= i < |t.keys| ==> t.keys[i] in t.decls)
  }

  /** DeclarationSet.add(d): a new name is appended; an equal declaration is kept; a different one replaces the old in its place. */
  function Put(t: Table, d: Decl): (r: Table)
    ensures ValidTable(t) ==> ValidTable(r)
    ensures d.name in r.decls && r.decls[d.name] == d
  {
    if d.name !in t.decls then Table(t.keys + [d.name], t.decls[d.name := d])
    else if t.decls[d.name] == d then t
    else Table(t.keys, t.decls[d.name := d])
  }

  /** DeclarationSet.members(): the values in key order. */
  function Values(t: Table): (r: seq<Decl>)
    requires ValidTable(t)
    ensures |r| == |t.keys|
    ensures forall i :: 0 <= i < |r| ==> r[i] == t.decls[t.keys[i]]
  {
    seq(|t.keys|, i requires 0 <= i < |t.keys| => t.decls[t.keys[i]])
  }

  /** members() lists every declaration the set holds. */
  lemma ValuesListsAll(t: Table)
    requires ValidTable(t)
    ensures forall k :: k in t.decls ==> t.decls[k] in Values(t)
  {
    forall k | k in t.decls
      ensures t.decls[k] in Values(t)
    {
      var i :| 0 <= i < |t.keys| && t.keys[i] == k;
      assert Values(t)[i] == t.decls[k];
    }
  }

  /** Adding declarations one after the other. */
  function PutAll(t: Table, ds: seq<Decl>): (r: Table)
    ensures ValidTable(t) ==> ValidTable(r)
  {
    if ds == [] then t else Put(PutAll(t, ds[..|ds| - 1]), ds[|ds| - 1])
  }

  class DeclarationSet {
    var keys: seq<string>
    var decls: map<string, Decl>
    const description: string

    function Contents(): Table
      reads this
    {
      Table(keys, decls)
    }

    constructor (description: string)
      ensures Contents() == EmptyTable && this.description == description
    {
      keys := [];
      decls := map[];
      this.description := description;
    }

    /** add(d) */
    method Add(d: Decl)
      modifies this
      ensures Contents() == Put(old(Contents()), d)
    {
      var name := d.name;
      if name !in decls {
        keys := keys + [name];
        decls := decls[name := d];
      } else if decls[name] == d {
      } else {
        decls := decls[name := d];
      }
    }
  }

  // ---- toBeIncluded ----

  /** The sources list: empty as soon as either filter has include patterns. */
  function Sources(symbols: PatternFilter<string>, headers: PatternFilter<Option<Path>>, configured: seq<Path>): seq<Path>
  {
    if symbols.hasIncludes || headers.hasIncludes then [] else configured
  }

  /** toBeIncluded(decl): the first rule that applies decides. */
  function ToBeIncluded(symbols: PatternFilter<string>, headers: PatternFilter<Option<Path>>, sources: seq<Path>, d: Decl): bool
  {
    if symbols.isExcluded(d.name) then false
    else if headers.isExcluded(d.pos.path) then false
    else if symbols.isIncluded(d.name) then true
    else if headers.isIncluded(d.pos.path) then true
    else if d.Scoped? then d.skind == ENUM
    else if d.Constant? then true
    else d.pos.path.Some? && d.pos.path.value in sources
  }

  /**
   * An exclusion always wins; an inclusion wins otherwise; a scope other than an
   * enum is taken only when included explicitly; enums and constants are taken by
   * default; anything else is taken exactly when its file is one of the sources.
   */
  lemma ToBeIncludedRules(symbols: PatternFilter<string>, headers: PatternFilter<Option<Path>>, sources: seq<Path>, d: Decl)
    ensures symbols.isExcluded(d.name) || headers.isExcluded(d.pos.path) ==> !ToBeIncluded(symbols, headers, sources, d)
    ensures var explicit := symbols.isIncluded(d.name) || headers.isIncluded(d.pos.path);
      !symbols.isExcluded(d.name) && !headers.isExcluded(d.pos.path) ==>
        (ToBeIncluded(symbols, headers, sources, d) <==>
          explicit
          || (d.Scoped? && d.skind == ENUM)
          || d.Constant?
          || (!d.Scoped? && d.pos.path.Some? && d.pos.path.value in sources))
  {
  }

  /** With an include pattern in either filter, only explicit inclusions, enums and constants get through. */
  lemma IncludePatternsNarrow(symbols: PatternFilter<string>, headers: PatternFilter<Option<Path>>, configured: seq<Path>, d: Decl)
    requires symbols.hasIncludes || headers.hasIncludes
    ensures ToBeIncluded(symbols, headers, Sources(symbols, headers, configured), d) ==>
      symbols.isIncluded(d.name) || headers.isIncluded(d.pos.path) || (d.Scoped? && d.skind == ENUM) || d.Constant?
  {
  }

  // ---- the visitor, as the sequence of things it does ----

  datatype Bucket = FunctionSet | VariableSet | TypeSet | ConstantSet

  /** One step of the visitor: an add to one of the sets, or a visitDeclaration. */
  datatype Event = Added(bucket: Bucket, decl: Decl) | Visited(decl: Decl)

  /** d.accept(this): what the visitor does, in order. Typedefs fall to visitDeclaration. */
  function Events(d: Decl): seq<Event>
    decreases DeclSize(d), 0
  {
    match d
    case Scoped(_, k, _, _, ms, _, _) =>
      if k == TOPLEVEL then MembersEvents(ms)
      else if k == UNION || k == STRUCT then [Added(TypeSet, d), Visited(d)]
      else if k == ENUM then MembersEvents(ms) + [Visited(d)]
      else [Visited(d)]
    case Function(_, _, _, _, _) => [Added(FunctionSet, d), Visited(d)]
    case Variable(k, _, _, _, _) => if k == GLOBAL then [Added(VariableSet, d), Visited(d)] else [Visited(d)]
    case Constant(_, _, _, _, _) => [Added(ConstantSet, d), Visited(d)]
    case Typedef(_, _, _) => [Visited(d)]
  }

  /** Visiting declarations one after the other. */
  function MembersEvents(ds: seq<Decl>): seq<Event>
    decreases DeclsSize(ds), 1
  {
    if ds == [] then []
    else
      DeclsSizeSnoc(ds);
      MembersEvents(ds[..|ds| - 1]) + Events(ds[|ds| - 1])
  }

  lemma MembersEventsSnoc(ms: seq<Decl>, i: nat)
    requires i < |ms|
    ensures MembersEvents(ms[..i + 1]) == MembersEvents(ms[..i]) + Events(ms[i])
  {
    var p := ms[..i + 1];
    assert p[..|p| - 1] == ms[..i];
  }

  /** What the four sets and the file-members map hold. */
  datatype State = State(functions: Table, variables: Table, types: Table, constants: Table, files: map<Path, seq<Decl>>)

  const Initial := State(EmptyTable, EmptyTable, EmptyTable, EmptyTable, map[])

  function TableOf(s: State, b: Bucket): Table
  {
    match b
    case FunctionSet => s.functions
    case VariableSet => s.variables
    case TypeSet => s.types
    case ConstantSet => s.constants
  }

  /** One step: an add to one set, or visitDeclaration filing the declaration under its path. */
  function Step(s: State, e: Event): State
  {
    match e
    case Added(b, d) =>
      (match b
       case FunctionSet => s.(functions := Put(s.functions, d))
       case VariableSet => s.(variables := Put(s.variables, d))
       case TypeSet => s.(types := Put(s.types, d))
       case ConstantSet => s.(constants := Put(s.constants, d)))
    case Visited(d) =>
      if d.pos.path.Some? then
        var file := d.pos.path.value;
        s.(files := s.files[file := (if file in s.files then s.files[file] else []) + [d]])
      else s
  }

  /** The state after a sequence of steps from the empty sets. */
  function Replay(es: seq<Event>): (r: State)
    ensures ValidTable(r.functions) && ValidTable(r.variables) && ValidTable(r.types) && ValidTable(r.constants)
  {
    if es == [] then Initial else Step(Replay(es[..|es| - 1]), es[|es| - 1])
  }

  /** The declarations added to one set, in order. */
  function InBucket(es: seq<Event>, b: Bucket): seq<Decl>
  {
    if es == [] then []
    else
      var e := es[|es| - 1];
      InBucket(es[..|es| - 1], b) + (if e.Added? && e.bucket == b then [e.decl] else [])
  }

  /** Which declarations may enter which set. */
  predicate Belongs(b: Bucket, d: Decl)
  {
    match b
    case FunctionSet => d.Function?
    case VariableSet => d.Variable? && d.vkind == GLOBAL
    case TypeSet => d.Scoped? && (d.skind == STRUCT || d.skind == UNION)
    case ConstantSet => d.Constant?
  }

  /** The declaration set the visitor adds a declaration to, if any (an enum's members are visited instead). */
  function BucketOf(d: Decl): (r: Option<Bucket>)
    requires !(d.Scoped? && (d.skind == TOPLEVEL || d.skind == ENUM))
    ensures r.Some? ==> Belongs(r.value, d)
    ensures Events(d) == (if r.Some? then [Added(r.value, d)] else []) + [Visited(d)]
  {
    if d.Scoped? && (d.skind == UNION || d.skind == STRUCT) then Some(TypeSet)
    else if d.Function? then Some(FunctionSet)
    else if d.Variable? && d.vkind == GLOBAL then Some(VariableSet)
    else if d.Constant? then Some(ConstantSet)
    else None
  }

  predicate WellSorted(es: seq<Event>)
  {
    forall i :: 0 <= i < |es| ==> es[i].Added? ==> Belongs(es[i].bucket, es[i].decl)
  }

  /** The order of the generated candidates: types, constants, variables, functions. */
  function Rank(d: Decl): nat
  {
    match d
    case Scoped(_, _, _, _, _, _, _) => 0
    case Constant(_, _, _, _, _) => 1
    case Variable(_, _, _, _, _) => 2
    case Function(_, _, _, _, _) => 3
    case Typedef(_, _, _) => 4
  }

  /** The constants whose names the symbol filter includes. */
  function IncludedConstants(ds: seq<Decl>, symbols: PatternFilter<string>): (r: seq<Decl>)
    ensures forall i :: 0 <= i < |r| ==> r[i] in ds && symbols.isIncluded(r[i].name)
  {
    if ds == [] then []
    else
      var rest := IncludedConstants(ds[..|ds| - 1], symbols);
      var d := ds[|ds| - 1];
      rest + (if symbols.isIncluded(d.name) then [d] else [])
  }

  /** The loop of generate() that keeps the explicitly included constants, in order. */
  method FilterIncluded(constants: seq<Decl>, symbols: PatternFilter<string>) returns (included: seq<Decl>)
    ensures included == IncludedConstants(constants, symbols)
  {
    included := [];
    for i := 0 to |constants|
      invariant included == IncludedConstants(constants[..i], symbols)
    {
      if symbols.isIncluded(constants[i].name) {
        included := included + [constants[i]];
      }
      assert constants[..i + 1][..i] == constants[..i];
    }
    assert constants[..|constants|] == constants;
  }

  /** The candidates of generate(). */
  function Candidates(types: Table, constants: Table, variables: Table, functions: Table, symbols: PatternFilter<string>): seq<Decl>
    requires ValidTable(types) && ValidTable(constants) && ValidTable(variables) && ValidTable(functions)
  {
    Values(types) + IncludedConstants(Values(constants), symbols) + Values(variables) + Values(functions)
  }

  /** One toplevel member in generate's first pass: if included, collect its dependencies and visit them. */
  function MemberStep(symbols: PatternFilter<string>, headers: PatternFilter<Option<Path>>, sources: seq<Path>,
                      env: Scopes, m: Decl): (seq<Event>, Option<Exception>)
    requires ClosedDecl(env.Keys, m)
  {
    if !ToBeIncluded(symbols, headers, sources, m) then ([], None)
    else match Collect(env, m)
      case Err(x) => ([], Some(x))
      case Ok(deps) => (MembersEvents(deps), None)
  }

  /** generate's first pass over the toplevel members: the visitor's steps, and the exception that stops it, if any. */
  function GenerateRun(symbols: PatternFilter<string>, headers: PatternFilter<Option<Path>>, sources: seq<Path>,
                       env: Scopes, ms: seq<Decl>): (seq<Event>, Option<Exception>)
    requires forall i :: 0 <= i < |ms| ==> ClosedDecl(env.Keys, ms[i])
  {
    if ms == [] then ([], None)
    else
      var (es, err) := GenerateRun(symbols, headers, sources, env, ms[..|ms| - 1]);
      if err.Some? then (es, err)
      else
        var (es', err') := MemberStep(symbols, headers, sources, env, ms[|ms| - 1]);
        (es + es', err')
  }

  class JavaSourceFactory {
    const symbols: PatternFilter<string>
    const headers: PatternFilter<Option<Path>>
    const sources: seq<Path>
    const uniqFunctions: DeclarationSet
    const uniqVariables: DeclarationSet
    const uniqTypes: DeclarationSet
    const uniqConstants: DeclarationSet
    var fileMembers: map<Path, seq<Decl>>
    /** Everything the visitor has done so far. */
    ghost var events: seq<Event>

    function Snapshot(): State
      reads this, uniqFunctions, uniqVariables, uniqTypes, uniqConstants
    {
      State(uniqFunctions.Contents(), uniqVariables.Contents(), uniqTypes.Contents(), uniqConstants.Contents(), fileMembers)
    }

    /** The four sets and the file-members map are what replaying the visitor's steps gives. */
    ghost predicate Valid()
      reads this, uniqFunctions, uniqVariables, uniqTypes, uniqConstants
    {
      && uniqFunctions != uniqVariables && uniqFunctions != uniqTypes && uniqFunctions != uniqConstants
      && uniqVariables != uniqTypes && uniqVariables != uniqConstants && uniqTypes != uniqConstants
      && WellSorted(events)
      && Snapshot() == Replay(events)
    }

    constructor (symbols: PatternFilter<string>, headers: PatternFilter<Option<Path>>, configured: seq<Path>)
      ensures Valid() && events == []
      ensures this.symbols == symbols && this.headers == headers
      ensures sources == Sources(symbols, headers, configured)
    {
      this.symbols := symbols;
      this.headers := headers;
      sources := if symbols.hasIncludes || headers.hasIncludes then [] else configured;
      uniqFunctions := new DeclarationSet("function prototype");
      uniqVariables := new DeclarationSet("variable");
      uniqTypes := new DeclarationSet("type declaration");
      uniqConstants := new DeclarationSet("constant definition");
      fileMembers := map[];
      events := [];
    }

    /** One add to the set of bucket `b`. */
    method AddTo(b: Bucket, d: Decl)
      requires Valid() && Belongs(b, d)
      modifies this, uniqFunctions, uniqVariables, uniqTypes, uniqConstants
      ensures Valid() && events == old(events) + [Added(b, d)]
    {
      ghost var before := events;
      ghost var s0 := Snapshot();
      match b {
        case FunctionSet => uniqFunctions.Add(d);
        case VariableSet => uniqVariables.Add(d);
        case TypeSet => uniqTypes.Add(d);
        case ConstantSet => uniqConstants.Add(d);
      }
      assert Snapshot() == Step(s0, Added(b, d));
      events := events + [Added(b, d)];
      ReplaySnoc(before, Added(b, d));
      ConcatWellSorted(before, [Added(b, d)]);
    }

    /** visitDeclaration(d) */
    method VisitDeclaration(d: Decl)
      requires Valid()
      modifies this
      ensures Valid() && events == old(events) + [Visited(d)]
    {
      ghost var before := events;
      ghost var s0 := Snapshot();
      if d.pos.path.Some? {
        var file := d.pos.path.value;
        var members := if file in fileMembers then fileMembers[file] else [];
        fileMembers := fileMembers[file := members + [d]];
      }
      assert Snapshot() == Step(s0, Visited(d));
      events := events + [Visited(d)];
      ReplaySnoc(before, Visited(d));
      ConcatWellSorted(before, [Visited(d)]);
    }

    /** d.accept(this) */
    method Visit(d: Decl)
      requires Valid()
      modifies this, uniqFunctions, uniqVariables, uniqTypes, uniqConstants
      ensures Valid() && events == old(events) + Events(d)
      decreases DeclSize(d), 1
    {
      ghost var before := events;
      if d.Scoped? && d.skind == TOPLEVEL {
        VisitMembers(d.members);
        return;
      }
      ghost var added := Classify(d);
      VisitDeclaration(d);
      ConcatAssoc(before, added, [Visited(d)]);
    }

    /** What a declaration other than the toplevel scope does before it is recorded as visited. */
    method Classify(d: Decl) returns (ghost added: seq<Event>)
      requires Valid() && !(d.Scoped? && d.skind == TOPLEVEL)
      modifies this, uniqFunctions, uniqVariables, uniqTypes, uniqConstants
      ensures Valid() && events == old(events) + added && Events(d) == added + [Visited(d)]
      decreases DeclSize(d), 0
    {
      if d.Scoped? && d.skind == ENUM {
        VisitMembers(d.members);
        added := MembersEvents(d.members);
        return;
      }
      var b := BucketOf(d);
      if b.None? {
        added := [];
        assert events == old(events) + added;
      } else {
        AddTo(b.value, d);
        added := [Added(b.value, d)];
      }
    }

    /** The members loop: each one accepts the visitor, in order. */
    method VisitMembers(ms: seq<Decl>)
      requires Valid()
      modifies this, uniqFunctions, uniqVariables, uniqTypes, uniqConstants
      ensures Valid() && events == old(events) + MembersEvents(ms)
      decreases DeclsSize(ms), 2
    {
      for i := 0 to |ms|
        invariant Valid()
        invariant events == old(events) + MembersEvents(ms[..i])
      {
        DeclsSizeBound(ms, i);
        ghost var e0 := MembersEvents(ms[..i]);
        Visit(ms[i]);
        MembersEventsSnoc(ms, i);
        ConcatAssoc(old(events), e0, Events(ms[i]));
      }
      assert ms[..|ms|] == ms;
    }

    /** The candidates, from the sets as they are now. */
    method CandidateList() returns (r: seq<Decl>)
      requires Valid()
      ensures r == Candidates(uniqTypes.Contents(), uniqConstants.Contents(), uniqVariables.Contents(), uniqFunctions.Contents(), symbols)
    {
      var included := FilterIncluded(Values(uniqConstants.Contents()), symbols);
      r := Values(uniqTypes.Contents()) + included + Values(uniqVariables.Contents()) + Values(uniqFunctions.Contents());
    }

    /**
     * generate(root): visit the dependencies of every included toplevel member,
     * then the candidates; an exception from the collector stops it.
     */
    method Generate(env: Scopes, root: Decl) returns (r: Result<seq<Decl>>)
      requires Valid() && root.Scoped? && ClosedDecl(env.Keys, root)
      modifies this, uniqFunctions, uniqVariables, uniqTypes, uniqConstants
      ensures Valid()
      ensures var (es, err) := GenerateRun(symbols, headers, sources, env, root.members);
        events == old(events) + es
        && (err.Some? ==> r == Err(err.value))
        && (err.None? ==> r == Ok(Candidates(uniqTypes.Contents(), uniqConstants.Contents(), uniqVariables.Contents(), uniqFunctions.Contents(), symbols)))
    {
      var err := FirstPass(env, root.members);
      if err.Some? {
        return Err(err.value);
      }
      var candidates := CandidateList();
      r := Ok(candidates);
    }

    /** The first pass: each toplevel member in order, until the collector throws. */
    method FirstPass(env: Scopes, ms: seq<Decl>) returns (err: Option<Exception>)
      requires Valid() && forall i :: 0 <= i < |ms| ==> ClosedDecl(env.Keys, ms[i])
      modifies this, uniqFunctions, uniqVariables, uniqTypes, uniqConstants
      ensures Valid()
      ensures (events == old(events) + GenerateRun(symbols, headers, sources, env, ms).0)
      ensures err == GenerateRun(symbols, headers, sources, env, ms).1
    {
      ghost var done: seq<Event> := [];
      assert ms[..0] == [];
      for i := 0 to |ms|
        invariant Valid()
        invariant events == old(events) + done
        invariant GenerateRun(symbols, headers, sources, env, ms[..i]) == (done, None)
      {
        GenerateRunStep(symbols, headers, sources, env, ms, i, done);
        ghost var step := MemberStep(symbols, headers, sources, env, ms[i]);
        err := GenerateMember(env, ms[i]);
        ConcatAssoc(old(events), done, step.0);
        done := done + step.0;
        if err.Some? {
          GenerateRunStops(symbols, headers, sources, env, ms, i + 1);
          return;
        }
      }
      assert ms[..|ms|] == ms;
      err := None;
    }

    /** One member of the first pass. */
    method GenerateMember(env: Scopes, m: Decl) returns (err: Option<Exception>)
      requires Valid() && ClosedDecl(env.Keys, m)
      modifies this, uniqFunctions, uniqVariables, uniqTypes, uniqConstants
      ensures Valid()
      ensures var (es, e) := MemberStep(symbols, headers, sources, env, m);
        events == old(events) + es && err == e
    {
      if !ToBeIncluded(symbols, headers, sources, m) {
        return None;
      }
      var deps := CollectDependencies(env, m);
      if deps.Err? {
        return Some(deps.error);
      }
      VisitMembers(deps.value);
      err := None;
    }
  }

  // ---- properties ----

  lemma ConcatAssoc(a: seq<Event>, b: seq<Event>, c: seq<Event>)
    ensures (a + b) + c == a + (b + c)
  {
  }

  lemma ReplaySnoc(es: seq<Event>, e: Event)
    ensures Replay(es + [e]) == Step(Replay(es), e)
  {
    assert (es + [e])[..|es|] == es;
  }

  lemma PutAllSnoc(ds: seq<Decl>, d: Decl)
    ensures PutAll(EmptyTable, ds + [d]) == Put(PutAll(EmptyTable, ds), d)
  {
    assert (ds + [d])[..|ds|] == ds;
  }

  /** One more member after a prefix that ran without an exception: its step is added to the prefix's. */
  lemma GenerateRunStep(symbols: PatternFilter<string>, headers: PatternFilter<Option<Path>>, sources: seq<Path>,
                        env: Scopes, ms: seq<Decl>, i: nat, done: seq<Event>)
    requires i < |ms| && forall k :: 0 <= k < |ms| ==> ClosedDecl(env.Keys, ms[k])
    requires GenerateRun(symbols, headers, sources, env, ms[..i]) == (done, None)
    ensures var step := MemberStep(symbols, headers, sources, env, ms[i]);
            GenerateRun(symbols, headers, sources, env, ms[..i + 1]) == (done + step.0, step.1)
  {
    assert ms[..i + 1][..i] == ms[..i] && ms[..i + 1][i] == ms[i];
  }

  /** Once generate has hit an exception, the later members change nothing. */
  lemma {:induction false} GenerateRunStops(symbols: PatternFilter<string>, headers: PatternFilter<Option<Path>>, sources: seq<Path>,
                                            env: Scopes, ms: seq<Decl>, n: nat)
    requires n <= |ms| && forall i :: 0 <= i < |ms| ==> ClosedDecl(env.Keys, ms[i])
    requires GenerateRun(symbols, headers, sources, env, ms[..n]).1.Some?
    ensures GenerateRun(symbols, headers, sources, env, ms) == GenerateRun(symbols, headers, sources, env, ms[..n])
    decreases |ms| - n
  {
    if n < |ms| {
      assert ms[..n + 1][..n] == ms[..n];
      GenerateRunStops(symbols, headers, sources, env, ms, n + 1);
    } else {
      assert ms[..n] == ms;
    }
  }

  /**
   * add: a new name is appended at the end; an equal redeclaration changes nothing;
   * a different declaration with a known name replaces the old one where it stood.
   */
  lemma PutCases(t: Table, d: Decl)
    requires ValidTable(t)
    ensures d.name !in t.decls ==> Put(t, d).keys == t.keys + [d.name] && Values(Put(t, d)) == Values(t) + [d]
    ensures d.name in t.decls && t.decls[d.name] == d ==> Put(t, d) == t
    ensures d.name in t.decls ==> Put(t, d).keys == t.keys
    ensures d.name in t.decls ==> forall i :: 0 <= i < |t.keys| ==>
      Values(Put(t, d))[i] == (if t.keys[i] == d.name then d else Values(t)[i])
  {
    if d.name !in t.decls {
      PutNewAppends(t, d);
    } else {
      PutKnownReplaces(t, d);
    }
  }

  lemma PutNewAppends(t: Table, d: Decl)
    requires ValidTable(t) && d.name !in t.decls
    ensures Put(t, d).keys == t.keys + [d.name] && Values(Put(t, d)) == Values(t) + [d]
  {
    var u := Put(t, d);
    var vs := Values(t) + [d];
    forall i | 0 <= i < |u.keys|
      ensures Values(u)[i] == vs[i]
    {
      if i < |t.keys| {
        assert u.keys[i] == t.keys[i] != d.name;
      }
    }
  }

  lemma PutKnownReplaces(t: Table, d: Decl)
    requires ValidTable(t) && d.name in t.decls
    ensures Put(t, d).keys == t.keys
    ensures forall i :: 0 <= i < |t.keys| ==>
      Values(Put(t, d))[i] == (if t.keys[i] == d.name then d else Values(t)[i])
  {
    var u := Put(t, d);
    assert u == Table(t.keys, t.decls[d.name := d]);
    forall i | 0 <= i < |t.keys|
      ensures Values(u)[i] == (if t.keys[i] == d.name then d else Values(t)[i])
    {
      assert Values(u)[i] == u.decls[t.keys[i]];
    }
  }

  /** The names of a sequence of declarations. */
  function Names(ds: seq<Decl>): (r: seq<string>)
    ensures |r| == |ds|
  {
    seq(|ds|, i requires 0 <= i < |ds| => ds[i].name)
  }

  /** Each name once, where it first occurs. */
  function FirstOccurrences(s: seq<string>): seq<string>
  {
    if s == [] then []
    else
      var p := FirstOccurrences(s[..|s| - 1]);
      if s[|s| - 1] in p then p else p + [s[|s| - 1]]
  }

  lemma {:induction false} FirstOccurrencesElems(s: seq<string>)
    ensures forall x :: x in FirstOccurrences(s) <==> x in s
  {
    if s != [] {
      FirstOccurrencesElems(s[..|s| - 1]);
      assert s == s[..|s| - 1] + [s[|s| - 1]];
    }
  }

  /** The last declaration with a given name. */
  function LastNamed(ds: seq<Decl>, n: string): Option<Decl>
  {
    if ds == [] then None
    else if ds[|ds| - 1].name == n then Some(ds[|ds| - 1])
    else LastNamed(ds[..|ds| - 1], n)
  }

  /**
   * Adding declarations one by one keeps each name where it first appeared, and
   * keeps under it the last declaration with that name.
   */
  lemma PutAllOrder(ds: seq<Decl>)
    ensures PutAll(EmptyTable, ds).keys == FirstOccurrences(Names(ds))
    ensures forall n :: n in PutAll(EmptyTable, ds).decls <==> LastNamed(ds, n).Some?
    ensures forall n :: n in PutAll(EmptyTable, ds).decls ==> PutAll(EmptyTable, ds).decls[n] == LastNamed(ds, n).value
  {
    PutAllKeys(ds);
    PutAllDecls(ds);
  }

  lemma {:induction false} PutAllKeys(ds: seq<Decl>)
    ensures PutAll(EmptyTable, ds).keys == FirstOccurrences(Names(ds))
  {
    if ds != [] {
      var init, d := ds[..|ds| - 1], ds[|ds| - 1];
      PutAllKeys(init);
      assert Names(ds)[..|ds| - 1] == Names(init);
      assert Names(ds)[|ds| - 1] == d.name;
      var t := PutAll(EmptyTable, init);
      FirstOccurrencesElems(Names(init));
      assert d.name in t.decls <==> d.name in t.keys;
    }
  }

  lemma PutAllDecls(ds: seq<Decl>)
    ensures forall n :: n in PutAll(EmptyTable, ds).decls <==> LastNamed(ds, n).Some?
    ensures forall n :: n in PutAll(EmptyTable, ds).decls ==> PutAll(EmptyTable, ds).decls[n] == LastNamed(ds, n).value
  {
    forall n | true
      ensures n in PutAll(EmptyTable, ds).decls <==> LastNamed(ds, n).Some?
      ensures n in PutAll(EmptyTable, ds).decls ==> PutAll(EmptyTable, ds).decls[n] == LastNamed(ds, n).value
    {
      PutAllLast(ds, n);
    }
  }

  /** The declaration kept under one name is the last one added with it. */
  lemma {:induction false} PutAllLast(ds: seq<Decl>, n: string)
    ensures n in PutAll(EmptyTable, ds).decls <==> LastNamed(ds, n).Some?
    ensures n in PutAll(EmptyTable, ds).decls ==> PutAll(EmptyTable, ds).decls[n] == LastNamed(ds, n).value
  {
    if ds != [] {
      PutAllLast(ds[..|ds| - 1], n);
    }
  }

  lemma {:induction false} ConcatWellSorted(a: seq<Event>, b: seq<Event>)
    requires WellSorted(a) && WellSorted(b)
    ensures WellSorted(a + b)
  {
    forall i | 0 <= i < |a + b|
      ensures (a + b)[i].Added? ==> Belongs((a + b)[i].bucket, (a + b)[i].decl)
    {
      if i >= |a| { assert (a + b)[i] == b[i - |a|]; }
    }
  }

  /** Only functions, GLOBAL variables, STRUCT and UNION scopes, and constants enter their sets. */
  lemma {:induction false} EventsWellSorted(d: Decl)
    ensures WellSorted(Events(d))
    decreases DeclSize(d), 0
  {
    match d
    case Scoped(_, k, _, _, ms, _, _) =>
      if k == TOPLEVEL {
        MembersEventsWellSorted(ms);
      } else if k == ENUM {
        MembersEventsWellSorted(ms);
        ConcatWellSorted(MembersEvents(ms), [Visited(d)]);
      }
    case _ =>
  }

  lemma {:induction false} MembersEventsWellSorted(ds: seq<Decl>)
    ensures WellSorted(MembersEvents(ds))
    decreases DeclsSize(ds), 1
  {
    if ds != [] {
      DeclsSizeSnoc(ds);
      MembersEventsWellSorted(ds[..|ds| - 1]);
      EventsWellSorted(ds[|ds| - 1]);
      ConcatWellSorted(MembersEvents(ds[..|ds| - 1]), Events(ds[|ds| - 1]));
    }
  }

  /** The visited declarations that have the given file as their path, in order. */
  function VisitedAt(es: seq<Event>, file: Path): seq<Decl>
  {
    if es == [] then []
    else
      var e := es[|es| - 1];
      VisitedAt(es[..|es| - 1], file) + (if e.Visited? && e.decl.pos.path == Some(file) then [e.decl] else [])
  }

  /** visitDeclaration groups the visited declarations by file, in order, and leaves out those with no path. */
  lemma {:induction false} GroupedByFile(es: seq<Event>)
    ensures forall file :: file in Replay(es).files <==> VisitedAt(es, file) != []
    ensures forall file :: file in Replay(es).files ==> Replay(es).files[file] == VisitedAt(es, file)
  {
    if es != [] {
      var init, e := es[..|es| - 1], es[|es| - 1];
      GroupedByFile(init);
      assert Replay(es) == Step(Replay(init), e);
      StepFiles(Replay(init), e);
    }
  }

  /** Only a visit of a declaration with a path changes the file map: it appends to that file's list. */
  lemma StepFiles(s: State, e: Event)
    ensures Step(s, e).files == if e.Visited? && e.decl.pos.path.Some?
                                then var file := e.decl.pos.path.value;
                                     s.files[file := (if file in s.files then s.files[file] else []) + [e.decl]]
                                else s.files
  {
  }

  /** Each set is the declarations added to it, put one after the other. */
  lemma {:induction false} ReplayTables(es: seq<Event>, b: Bucket)
    ensures TableOf(Replay(es), b) == PutAll(EmptyTable, InBucket(es, b))
  {
    if es != [] {
      var init, e := es[..|es| - 1], es[|es| - 1];
      ReplayTables(init, b);
      assert Replay(es) == Step(Replay(init), e);
      StepTable(Replay(init), e, b);
      if e.Added? && e.bucket == b {
        assert InBucket(es, b) == InBucket(init, b) + [e.decl];
        PutAllSnoc(InBucket(init, b), e.decl);
      } else {
        assert InBucket(es, b) == InBucket(init, b);
      }
    }
  }

  lemma StepTable(s: State, e: Event, b: Bucket)
    ensures TableOf(Step(s, e), b) == if e.Added? && e.bucket == b then Put(TableOf(s, b), e.decl) else TableOf(s, b)
  {
  }

  /** Every member of a set was added to it. */
  lemma {:induction false} ValuesWereAdded(ds: seq<Decl>)
    ensures forall i :: 0 <= i < |Values(PutAll(EmptyTable, ds))| ==> Values(PutAll(EmptyTable, ds))[i] in ds
  {
    PutAllOrder(ds);
    var t := PutAll(EmptyTable, ds);
    forall i | 0 <= i < |Values(t)|
      ensures Values(t)[i] in ds
    {
      LastNamedIn(ds, t.keys[i]);
    }
  }

  lemma {:induction false} LastNamedIn(ds: seq<Decl>, n: string)
    ensures LastNamed(ds, n).Some? ==> LastNamed(ds, n).value in ds
  {
    if ds != [] && ds[|ds| - 1].name != n {
      LastNamedIn(ds[..|ds| - 1], n);
    }
  }

  lemma {:induction false} InBucketBelongs(es: seq<Event>, b: Bucket)
    requires WellSorted(es)
    ensures forall i :: 0 <= i < |InBucket(es, b)| ==> Belongs(b, InBucket(es, b)[i])
  {
    if es != [] {
      InBucketBelongs(es[..|es| - 1], b);
    }
  }

  /** A set built from well-sorted steps holds only declarations that belong to it. */
  lemma SetBelongs(es: seq<Event>, b: Bucket)
    requires WellSorted(es)
    ensures forall i :: 0 <= i < |Values(TableOf(Replay(es), b))| ==> Belongs(b, Values(TableOf(Replay(es), b))[i])
  {
    InBucketBelongs(es, b);
    ReplayTables(es, b);
    ValuesWereAdded(InBucket(es, b));
  }

  predicate Ranked(s: seq<Decl>)
  {
    forall i, j :: 0 <= i <= j < |s| ==> Rank(s[i]) <= Rank(s[j])
  }

  lemma RankedBlock(a: seq<Decl>, b: seq<Decl>, r: nat)
    requires Ranked(a) && (forall i :: 0 <= i < |a| ==> Rank(a[i]) <= r)
    requires forall i :: 0 <= i < |b| ==> Rank(b[i]) == r
    ensures Ranked(a + b) && forall i :: 0 <= i < |a + b| ==> Rank((a + b)[i]) <= r
  {
  }

  /**
   * The candidates come types first, then constants, then variables, then functions;
   * every constant among them is one the symbol filter includes explicitly.
   */
  lemma CandidatesOrdered(es: seq<Event>, symbols: PatternFilter<string>)
    requires WellSorted(es)
    ensures var s := Replay(es);
      var c := Candidates(s.types, s.constants, s.variables, s.functions, symbols);
      Ranked(c) && (forall i :: 0 <= i < |c| && c[i].Constant? ==> symbols.isIncluded(c[i].name))
  {
    var s := Replay(es);
    var cs := IncludedConstants(Values(s.constants), symbols);
    SetBelongs(es, TypeSet);
    SetBelongs(es, ConstantSet);
    SetBelongs(es, VariableSet);
    SetBelongs(es, FunctionSet);
    assert TableOf(s, TypeSet) == s.types && TableOf(s, ConstantSet) == s.constants;
    assert TableOf(s, VariableSet) == s.variables && TableOf(s, FunctionSet) == s.functions;
    BucketRank(Values(s.types), TypeSet, 0);
    BucketRank(cs, ConstantSet, 1);
    BucketRank(Values(s.variables), VariableSet, 2);
    BucketRank(Values(s.functions), FunctionSet, 3);
    BlocksRanked(Values(s.types), cs, Values(s.variables), Values(s.functions));
    ConstantsFromBlock(Values(s.types), cs, Values(s.variables), Values(s.functions));
  }

  /** In the candidate order, the only constants are those of the constants block. */
  lemma ConstantsFromBlock(ts: seq<Decl>, cs: seq<Decl>, vs: seq<Decl>, fs: seq<Decl>)
    requires forall i :: 0 <= i < |ts| ==> Rank(ts[i]) == 0
    requires forall i :: 0 <= i < |vs| ==> Rank(vs[i]) == 2
    requires forall i :: 0 <= i < |fs| ==> Rank(fs[i]) == 3
    ensures forall i :: 0 <= i < |ts + cs + vs + fs| && (ts + cs + vs + fs)[i].Constant? ==> (ts + cs + vs + fs)[i] in cs
  {
    var c := ts + cs + vs + fs;
    forall i | 0 <= i < |c| && c[i].Constant?
      ensures c[i] in cs
    {
      if |ts| <= i < |ts| + |cs| {
        assert c[i] == cs[i - |ts|];
      }
    }
  }

  /** Every declaration of a set has the rank of that set's block among the candidates. */
  lemma BucketRank(ds: seq<Decl>, b: Bucket, r: nat)
    requires forall i :: 0 <= i < |ds| ==> Belongs(b, ds[i])
    requires r == match b case TypeSet => 0 case ConstantSet => 1 case VariableSet => 2 case FunctionSet => 3
    ensures forall i :: 0 <= i < |ds| ==> Rank(ds[i]) == r
  {
  }

  lemma BlocksRanked(ts: seq<Decl>, cs: seq<Decl>, vs: seq<Decl>, fs: seq<Decl>)
    requires forall i :: 0 <= i < |ts| ==> Rank(ts[i]) == 0
    requires forall i :: 0 <= i < |cs| ==> Rank(cs[i]) == 1
    requires forall i :: 0 <= i < |vs| ==> Rank(vs[i]) == 2
    requires forall i :: 0 <= i < |fs| ==> Rank(fs[i]) == 3
    ensures Ranked(ts + cs + vs + fs)
  {
    RankedBlock([], ts, 0);
    assert [] + ts == ts;
    RankedBlock(ts, cs, 1);
    RankedBlock(ts + cs, vs, 2);
    RankedBlock(ts + cs + vs, fs, 3);
  }
}
