# A verified model of the Panama foreign-function core

This project models, in Dafny, the core logic of the Panama foreign-function
work in OpenJDK (the `panama-foreign` repository). It covers three parts:

- **The binding-recipe invoker** (`ProgrammableInvoker`). A downcall is described by a
  calling sequence: one list of binding steps per parameter and one for the result
  (MOVE, DUP, CONVERT_ADDRESS, BASE_ADDRESS, DEREFERENCE, COPY_BUFFER, ALLOC_BUFFER).
  - The fast path folds those steps, right to left, into method-handle adapters around
    the raw native call.
  - The generic path (`invoke`, `invokeSpec`) fills an argument buffer and a stack area
    in native memory, calls the per-ABI stub, and releases what it allocated.
  - Method handles are modelled by their types and by how they were built; the JDK
    combinators perform their own argument checks.
  - Native memory is an arena of segments, each open or closed.
- **The binder generator (jbind) and jextract's type translation.** This covers:
  - C types and declarations translated to Java carriers;
  - structural matching of declarations;
  - dependency collection, and the loop-safe type walker;
  - names for anonymous declarations;
  - header-to-package resolution;
  - the choice of declarations that become bindings;
  - layout flattening;
  - the class of constant getters written as bytecode;
  - the Java source text the source-mode builder writes;
  - identifier sanitising and string escaping;
  - the variadic invoker.
- **The small interop rules of the NIO port.** This covers:
  - NUL-terminated C strings;
  - errno and return-value classification;
  - the retry loops of the macOS `UnixNativeDispatcher`;
  - the hex dump;
  - the time-value splits;
  - the `stat64` attributes with their overflow-aware time conversion.

Code that changes state step by step is imperative Dafny:
- classes for the builders, registries and caches, with the fields the source updates;
- methods with loops and their invariants.

Each method is proved against a specification function: its contract ties the result, or
the new state, to that function. A method that makes a single update states its new state
outright. The type dependency walker's methods, for example, append exactly the handler
calls of a reference walk to their trace. The properties the source promises are proved about
the functions as lemmas: round trips, memoisation, first-wins maps, ordering, and release
on every path.

A few more modelling choices:

- **Native calls, errno, the clock and the file system** are parameters. A retry loop reads
  the successive native responses from a sequence.
- **Object identity.** Where the source compares objects by identity, the model carries an
  identity token. This covers `==` on layouts, paths, constant values and `OptionalLong`
  element counts. A group layout carries a flag that is true only of the object
  `CSupport.SysV.C_COMPLEX_LONGDOUBLE`, which the source builder writes by that name. As
  written, two arrays with equal element counts held in distinct `OptionalLong` objects do
  not match. `DeclarationMatch.ArrayCountObjectsDiffer` shows this
  case. `DeclarationMatch.ArrayMatchByValue` states what comparing the counts by value would
  give.
- **Where documentation and code disagree, the model follows the code.** There are two
  exceptions. The variadic parameter delimiter and `getgrnam`'s "no such group" test follow
  the corrected code of "## Findings". Each as-written form is modelled next to it, and
  "## Left out" names the members that use the corrected form. The cases that follow the code:
  - `StringUtils.quote` escapes every non-ASCII character, although its doc comment says such
    characters are left alone.
  - `TypeMatch` strips every delegated wrapper, pointers included.
  - `JavaSourceFactory.generate` calls a two-argument `SymbolDependencyCollector.collect` that
    the collector does not have. The model uses the one-argument `collect(decl)` that it does
    have.
  - `HeaderResolver.resolveHeaderPath` says in its doc comment that a path no folder mapping
    covers gets the default package. Its code derives the package from every component of
    the path instead (`HeaderResolution.HeaderResolver.InferPackage`,
    `HeaderResolution.DerivedPackageSegments`).

## Model

| member | source | states |
|---|---|---|
| `NamingUtils.ToJavaIdentifier` | src/jdk.incubator.jbind/share/classes/jdk/incubator/jbind/NamingUtils.java:35-50 | the empty string fails at `charAt(0)`; otherwise the buffer loop yields the identifier: a '_' in front when the first character cannot start an identifier, then every character kept or replaced by '_' |
| `NamingUtils.JavaIdentifierShape` | src/jdk.incubator.jbind/share/classes/jdk/incubator/jbind/NamingUtils.java:35-50 | the result starts like an identifier and is made of identifier parts; it is one character longer exactly when the input's first character cannot start an identifier; every part character of the input is kept at its place |
| `NamingUtils.JavaIdentifierIsValid` | src/jdk.incubator.jbind/share/classes/jdk/incubator/jbind/NamingUtils.java:35-50 | every result of toJavaIdentifier other than "_" passes validSimpleIdentifier |
| `NamingUtils.JavaIdentifierIdempotent` | src/jdk.incubator.jbind/share/classes/jdk/incubator/jbind/NamingUtils.java:35-50 | applying toJavaIdentifier to its own result changes nothing |
| `NamingUtils.ToSafeName` | src/jdk.incubator.jbind/share/classes/jdk/incubator/jbind/NamingUtils.java:52-60 | fails exactly for the empty name |
| `NamingUtils.SafeNameIsValid` | src/jdk.incubator.jbind/share/classes/jdk/incubator/jbind/NamingUtils.java:52-60 | a safe name is never a keyword and always a valid simple identifier; '$' is appended exactly when the Java identifier is a keyword |
| `NamingUtils.ValidSimpleIdentifier` | src/jdk.incubator.jbind/share/classes/jdk/incubator/jbind/NamingUtils.java:76-98 | returns the name exactly when it is non-empty, not "_", starts like an identifier and continues with identifier parts; otherwise IllegalArgumentException |
| `NamingUtils.LastIndexOf` | src/jdk.incubator.jbind/share/classes/jdk/incubator/jbind/NamingUtils.java:66 | String.lastIndexOf: -1 or an index holding the character, with no occurrence after it |
| `NamingUtils.ValidPackageName` | src/jdk.incubator.jbind/share/classes/jdk/incubator/jbind/NamingUtils.java:62-74 | a success returns the name unchanged; every failure is IllegalArgumentException |
| `NamingUtils.ValidPackageNameSegments` | src/jdk.incubator.jbind/share/classes/jdk/incubator/jbind/NamingUtils.java:62-74 | the recursion accepts a name exactly when every '.'-separated segment, empty ones included, is a valid simple identifier |
| `NamingUtils.SymbolInLib` | src/jdk.incubator.jbind/share/classes/jdk/incubator/jbind/NamingUtils.java:100-106 | the declaration's name without an AsmLabelAttr; otherwise the label's first value, without its first character on macOS; an empty value list or an empty macOS label throws |
| `StringUtils.Quote` | src/jdk.incubator.jbind/share/classes/jdk/incubator/jbind/StringUtils.java:8-14 | the buffer loop yields the escapes of the characters, in order |
| `StringUtils.QuoteAllAppend` | src/jdk.incubator.jbind/share/classes/jdk/incubator/jbind/StringUtils.java:8-14 | quoting a concatenation is the concatenation of the quotes |
| `StringUtils.QuoteCharShape` | src/jdk.incubator.jbind/share/classes/jdk/incubator/jbind/StringUtils.java:20-42 | each escape is one, two or six printable ASCII characters; one exactly for printable ASCII other than quote, double quote and backslash |
| `StringUtils.QuoteEscapesNonAscii` | src/jdk.incubator.jbind/share/classes/jdk/incubator/jbind/StringUtils.java:30-33 | a character from U+0080 up is written as `\u` and four hexadecimal digits |
| `StringUtils.QuoteAllPrintable` | src/jdk.incubator.jbind/share/classes/jdk/incubator/jbind/StringUtils.java:8-14 | the quoted text of any string is printable ASCII only |
| `StringUtils.Hex4RoundTrip` | src/jdk.incubator.jbind/share/classes/jdk/incubator/jbind/StringUtils.java:33 | the four digits of `%04x` read back as the code unit |
| `StringUtils.UnquoteStep` | src/jdk.incubator.jbind/share/classes/jdk/incubator/jbind/StringUtils.java:20-35 | reading an escape back as Java source does gives the character it escapes |
| `StringUtils.QuoteRoundTrip` | src/jdk.incubator.jbind/share/classes/jdk/incubator/jbind/StringUtils.java:8-35 | reading the quoted text back as a Java string literal gives the original string |
| `JbindTypeTranslator.TypeToLayoutName` | src/jdk.incubator.jbind/share/classes/jdk/incubator/jbind/TypeTranslator.java:60-73 | succeeds exactly for the nine kinds with a C layout constant, whose name starts with "C_"; every other kind throws |
| `JbindTypeTranslator.LayoutToClass` | src/jdk.incubator.jbind/share/classes/jdk/incubator/jbind/TypeTranslator.java:75-85 | succeeds exactly when the bit size, cast to int, is 8, 16, 32, 64 or 128; the result is a numeric primitive, floating point only when asked for; otherwise UnsupportedOperationException |
| `JbindTypeTranslator.GetJavaType` | src/jdk.incubator.jbind/share/classes/jdk/incubator/jbind/TypeTranslator.java:38-124 | every class it returns is a primitive, MemoryAddress or MemorySegment; a function type throws UnsupportedOperationException |
| `JbindTypeTranslator.AppendParameter` | src/jdk.incubator.jbind/share/classes/jdk/incubator/jbind/TypeTranslator.java:129 | appending a parameter class succeeds exactly when getJavaType gave a class other than void; getJavaType's own exception passes through, and void.class is rejected with IllegalArgumentException |
| `JbindTypeTranslator.AppendAllPointwise` | src/jdk.incubator.jbind/share/classes/jdk/incubator/jbind/TypeTranslator.java:128-130 | the loop builds the parameter list exactly when every argument has a class and none is void, and then the list holds those classes in order; when every argument has a class, the only possible failure is IllegalArgumentException |
| `JbindTypeTranslator.AppendAllSnoc` | src/jdk.incubator.jbind/share/classes/jdk/incubator/jbind/TypeTranslator.java:128-130 | one more turn of the loop appends the next argument's class to the list built so far |
| `JbindTypeTranslator.AppendAllErr` | src/jdk.incubator.jbind/share/classes/jdk/incubator/jbind/TypeTranslator.java:128-130 | the first argument that has no class or is void stops the loop, and its exception is the loop's |
| `JbindTypeTranslator.TranslateAllPointwise` | src/jdk.incubator.jbind/share/classes/jdk/incubator/jbind/TypeTranslator.java:128-130 | the argument list translates exactly when every argument does and none is void, and then element by element; with every argument translated, a failure is IllegalArgumentException |
| `JbindTypeTranslator.TranslateAllErr` | src/jdk.incubator.jbind/share/classes/jdk/incubator/jbind/TypeTranslator.java:128-130 | the first argument that fails or is void decides the exception of the whole list |
| `JbindTypeTranslator.MethodTypeOfSpec` | src/jdk.incubator.jbind/share/classes/jdk/incubator/jbind/TypeTranslator.java:126-135 | the method type is built exactly when the return type and every argument type translate and no argument is void; the return class, then one class per argument in order; when every type translates, the only failure is IllegalArgumentException for a void argument |
| `JbindTypeTranslator.GetMethodType` | src/jdk.incubator.jbind/share/classes/jdk/incubator/jbind/TypeTranslator.java:126-135 | succeeds exactly when the return and every argument type translate and no argument is void (a void argument throws IllegalArgumentException); the return class, then one class per argument in order, then Object[] for varargs |
| `JbindTypeTranslator.GetCanonicalType` | src/jdk.incubator.jbind/share/classes/jdk/incubator/jbind/TypeTranslator.java:137-145 | the result has no typedef on top and is no larger than the input, strictly smaller when the input is a typedef |
| `JbindTypeTranslator.CanonicalIdempotent` | src/jdk.incubator.jbind/share/classes/jdk/incubator/jbind/TypeTranslator.java:137-145 | canonicalising twice is canonicalising once; a type without a typedef on top is its own canonical type |
| `JbindTypeTranslator.CanonicalKeepsJavaType` | src/jdk.incubator.jbind/share/classes/jdk/incubator/jbind/TypeTranslator.java:137-145 | looking through typedefs never changes the Java class of a type |
| `JbindTypeTranslator.Dimension` | src/jdk.incubator.jbind/share/classes/jdk/incubator/jbind/TypeTranslator.java:147-156 | the loop returns the number of array levels, each looked at through typedefs, and the innermost element type, which is neither an array nor a typedef |
| `JbindTypeTranslator.DimensionOfNested` | src/jdk.incubator.jbind/share/classes/jdk/incubator/jbind/TypeTranslator.java:147-156 | an array level under a typedef adds one to the depth and keeps the innermost element |
| `JextractTypeTranslator.GetJavaType` | src/jdk.incubator.jextract/share/classes/jdk/incubator/jextract/tool/TypeTranslator.java:37-127 | every class it returns is a primitive, MemoryAddress or MemorySegment; an array translates exactly when it is not a vector |
| `JextractTypeTranslator.TranslateAllPointwise` | src/jdk.incubator.jextract/share/classes/jdk/incubator/jextract/tool/TypeTranslator.java:134-137 | the argument list translates exactly when every argument does and none is void, and then element by element; with every argument translated, a failure is IllegalArgumentException |
| `JextractTypeTranslator.TranslateAllErr` | src/jdk.incubator.jextract/share/classes/jdk/incubator/jextract/tool/TypeTranslator.java:134-137 | the first argument that fails or is void decides the exception of the whole list |
| `JextractTypeTranslator.MethodTypeOfSpec` | src/jdk.incubator.jextract/share/classes/jdk/incubator/jextract/tool/TypeTranslator.java:133-142 | the method type is built exactly when the return type and every argument type translate and no argument is void; when every type translates, the only failure is IllegalArgumentException for a void argument; one class per argument in order, plus Object[] only for a variadic function when the check is asked for |
| `JextractTypeTranslator.GetMethodTypeChecked` | src/jdk.incubator.jextract/share/classes/jdk/incubator/jextract/tool/TypeTranslator.java:133-142 | succeeds exactly when the return and every argument type translate and no argument is void (a void argument throws IllegalArgumentException); one class per argument in order, plus one more (Object[]) only for a variadic function when the check is asked for |
| `JextractTypeTranslator.GetMethodType` | src/jdk.incubator.jextract/share/classes/jdk/incubator/jextract/tool/TypeTranslator.java:129-131 | the one-argument form checks varargs, so a variadic function's last parameter is Object[] |
| `JextractTypeTranslator.TranslatorsAgree` | src/jdk.incubator.jextract/share/classes/jdk/incubator/jextract/tool/TypeTranslator.java:37-127 | on a type with no function type and no array outside a pointer, jextract's and the binder's translators give the same class or the same exception |
| `JextractTypeTranslator.TranslatorsDiffer` | src/jdk.incubator.jextract/share/classes/jdk/incubator/jextract/tool/TypeTranslator.java:93-118 | where they differ: a function type is MemoryAddress for jextract and an error for the binder; a non-vector array is MemorySegment for jextract and MemoryAddress for the binder; a vector fails |
| `DeclarationMatch.StripDelegated` | src/jdk.incubator.jbind/share/classes/jdk/incubator/jbind/DeclarationMatch.java:103-108 | the canonical type has no delegated wrapper left and is strictly smaller than a delegated input |
| `DeclarationMatch.Match` | src/jdk.incubator.jbind/share/classes/jdk/incubator/jbind/DeclarationMatch.java:34-96 | matching declarations have the same name and, unless the first is a typedef, the same kind; two scoped declarations match exactly when their trees do |
| `DeclarationMatch.TypeMatchStripped` | src/jdk.incubator.jbind/share/classes/jdk/incubator/jbind/DeclarationMatch.java:103-112 | comparing two types is comparing them with every wrapper stripped from both |
| `DeclarationMatch.DelegatedTransparent` | src/jdk.incubator.jbind/share/classes/jdk/incubator/jbind/DeclarationMatch.java:146-150 | a typedef, pointer or other delegated wrapper on either side never changes the outcome, so a pointer to T matches T |
| `DeclarationMatch.TypeMatchReflexive` | src/jdk.incubator.jbind/share/classes/jdk/incubator/jbind/DeclarationMatch.java:110-168 | every type matches itself |
| `DeclarationMatch.ArgsMatchReflexive` | src/jdk.incubator.jbind/share/classes/jdk/incubator/jbind/DeclarationMatch.java:127-131 | every argument list matches itself, position by position |
| `DeclarationMatch.DeclMatchReflexive` | src/jdk.incubator.jbind/share/classes/jdk/incubator/jbind/DeclarationMatch.java:34-96 | every declaration matches itself |
| `DeclarationMatch.KindsNeverMix` | src/jdk.incubator.jbind/share/classes/jdk/incubator/jbind/DeclarationMatch.java:51-96 | a scoped, function, variable or constant declaration never matches a declaration of another kind |
| `DeclarationMatch.StructsMatchByLayoutObject` | src/jdk.incubator.jbind/share/classes/jdk/incubator/jbind/DeclarationMatch.java:51-68 | two structs of the same name match exactly when they share one layout object |
| `DeclarationMatch.ArrayCountObjectsDiffer` | src/jdk.incubator.jbind/share/classes/jdk/incubator/jbind/DeclarationMatch.java:161-168 | two int[4] types whose counts are distinct OptionalLong objects do not match as written |
| `DeclarationMatch.ArrayMatchByValue` | src/jdk.incubator.jbind/share/classes/jdk/incubator/jbind/DeclarationMatch.java:161-168 | with element counts compared by value, two arrays of the same count and element type always match |
| `SymbolDependencyCollector.CollectTypeInto` | src/jdk.incubator.jbind/share/classes/jdk/incubator/jbind/SymbolDependencyCollector.java:41-76 | the type visitor computes the type collector's list: declared scopes not yet in the list go to its front, the rest only recurse |
| `SymbolDependencyCollector.CollectDeclInto` | src/jdk.incubator.jbind/share/classes/jdk/incubator/jbind/SymbolDependencyCollector.java:79-100 | the declaration visitor computes the declaration collector: members in order, otherwise the declaration's type |
| `SymbolDependencyCollector.CollectDependencies` | src/jdk.incubator.jbind/share/classes/jdk/incubator/jbind/SymbolDependencyCollector.java:102-106 | collect(decl) starts from [decl]; when it succeeds the list still ends with decl |
| `SymbolDependencyCollector.PrefixErrStays` | src/jdk.incubator.jbind/share/classes/jdk/incubator/jbind/SymbolDependencyCollector.java:80-85 | once a member's visit fails, later members are not visited and that failure is the scope's result |
| `SymbolDependencyCollector.CollectTypeKeepsBase` | src/jdk.incubator.jbind/share/classes/jdk/incubator/jbind/SymbolDependencyCollector.java:41-76 | the type collector only prepends: the list it was given is what remains at the end |
| `SymbolDependencyCollector.CollectTypesKeepsBase` | src/jdk.incubator.jbind/share/classes/jdk/incubator/jbind/SymbolDependencyCollector.java:53-57 | the same for the loop over a function's argument types |
| `SymbolDependencyCollector.CollectTypeElems` | src/jdk.incubator.jbind/share/classes/jdk/incubator/jbind/SymbolDependencyCollector.java:41-76 | the type collector adds exactly the trees of the scopes the type names, and nothing else |
| `SymbolDependencyCollector.CollectTypesElems` | src/jdk.incubator.jbind/share/classes/jdk/incubator/jbind/SymbolDependencyCollector.java:53-57 | the same over a list of argument types |
| `SymbolDependencyCollector.CollectTypeNoDup` | src/jdk.incubator.jbind/share/classes/jdk/incubator/jbind/SymbolDependencyCollector.java:61-67 | a list without repeats stays without repeats: the contains check keeps every tree to one entry |
| `SymbolDependencyCollector.CollectTypesNoDup` | src/jdk.incubator.jbind/share/classes/jdk/incubator/jbind/SymbolDependencyCollector.java:53-57 | the same over a list of argument types |
| `SymbolDependencyCollector.CollectTypeSpec` | src/jdk.incubator.jbind/share/classes/jdk/incubator/jbind/SymbolDependencyCollector.java:41-76 | the three facts above together: the base stays at the end, exactly the named trees are added, and without repeats |
| `SymbolDependencyCollector.CollectDeclErr` | src/jdk.incubator.jbind/share/classes/jdk/incubator/jbind/SymbolDependencyCollector.java:79-100 | visiting a declaration fails exactly when a typedef is among the declarations visited, as Declaration.Visitor's default throws for it |
| `SymbolDependencyCollector.CollectDeclsErr` | src/jdk.incubator.jbind/share/classes/jdk/incubator/jbind/SymbolDependencyCollector.java:80-85 | a scope's members fail exactly when one of them holds a typedef |
| `SymbolDependencyCollector.CollectDeclSpec` | src/jdk.incubator.jbind/share/classes/jdk/incubator/jbind/SymbolDependencyCollector.java:79-100 | a successful visit keeps the base at the end and adds exactly the trees of the scopes the declaration's types name, without repeats |
| `SymbolDependencyCollector.CollectDeclsSpec` | src/jdk.incubator.jbind/share/classes/jdk/incubator/jbind/SymbolDependencyCollector.java:80-85 | the same over a scope's members in order |
| `SymbolDependencyCollector.CollectProperties` | src/jdk.incubator.jbind/share/classes/jdk/incubator/jbind/SymbolDependencyCollector.java:102-106 | collect(decl) fails exactly on a typedef; otherwise the result ends with decl, holds decl once, every dependency's tree once and nothing else, so every dependency comes before decl |
| `SymbolDependencyCollector.TwoDependenciesPrecede` | src/jdk.incubator.jbind/share/classes/jdk/incubator/jbind/SymbolDependencyCollector.java:52-67 | for a function taking pointers to two structs, both structs come before the function, the later argument's struct first |
| `TypeDependencyWalker.Toplevel` | src/jdk.incubator.jbind/share/classes/jdk/incubator/jbind/TypeDependencyWalker.java:58 | the parent walkDeclaration starts from is a toplevel scope with no position whose only member is the declaration |
| `TypeDependencyWalker.Walker.constructor` | src/jdk.incubator.jbind/share/classes/jdk/incubator/jbind/TypeDependencyWalker.java:41-49 | a walker starts with an empty loopDetection and has asked the handler nothing |
| `TypeDependencyWalker.Walker.Ask` | src/jdk.incubator.jbind/share/classes/jdk/incubator/jbind/TypeDependencyWalker.java:44 | one handler call: its answer is the handler's, it is recorded, and loopDetection is untouched |
| `TypeDependencyWalker.Walker.Enter` | src/jdk.incubator.jbind/share/classes/jdk/incubator/jbind/TypeDependencyWalker.java:113 | an accepted scope joins loopDetection, which again equals the set of scopes the handler accepted |
| `TypeDependencyWalker.TypeWalk` | src/jdk.incubator.jbind/share/classes/jdk/incubator/jbind/TypeDependencyWalker.java:61-104 | the reference walk of a type: the handler calls it makes, in order, and the scopes entered when it ends; those entered before are still entered |
| `TypeDependencyWalker.TypesWalk` | src/jdk.incubator.jbind/share/classes/jdk/incubator/jbind/TypeDependencyWalker.java:93-95 | the reference walk of a list of types, each starting where the previous ended; nothing entered is forgotten |
| `TypeDependencyWalker.DeclWalk` | src/jdk.incubator.jbind/share/classes/jdk/incubator/jbind/TypeDependencyWalker.java:106-157 | the reference walk of a declaration under its parent; nothing entered is forgotten |
| `TypeDependencyWalker.OfferedWalk` | src/jdk.incubator.jbind/share/classes/jdk/incubator/jbind/TypeDependencyWalker.java:112-153 | the reference walk of a declaration not yet entered, from the handler's answer on; nothing entered is forgotten |
| `TypeDependencyWalker.AcceptedWalk` | src/jdk.incubator.jbind/share/classes/jdk/incubator/jbind/TypeDependencyWalker.java:113-154 | the reference walk of what an accepted declaration looks into; nothing entered is forgotten |
| `TypeDependencyWalker.FunctionWalk` | src/jdk.incubator.jbind/share/classes/jdk/incubator/jbind/TypeDependencyWalker.java:125-129 | the reference walk of an accepted function's signature; nothing entered is forgotten |
| `TypeDependencyWalker.DeclsWalk` | src/jdk.incubator.jbind/share/classes/jdk/incubator/jbind/TypeDependencyWalker.java:114-116 | the reference walk of a list of declarations under one parent; nothing entered is forgotten |
| `TypeDependencyWalker.DeclWalkOffers` | src/jdk.incubator.jbind/share/classes/jdk/incubator/jbind/TypeDependencyWalker.java:108-156 | a scope in loopDetection is skipped without a question; any other declaration is first offered to the handler under its parent; a refusal ends its walk with nothing more asked and nothing entered; an accepted scope ends up entered |
| `TypeDependencyWalker.TypeWalkOffers` | src/jdk.incubator.jbind/share/classes/jdk/incubator/jbind/TypeDependencyWalker.java:61-104 | a primitive asks nothing; a declared type is walked as its scope; a TYPEDEF delegate is first offered as a typedef of its name at the reference's position; a function type is first offered as an unnamed typedef there, and a refusal ends its walk |
| `TypeDependencyWalker.WrappersWalkInner` | src/jdk.incubator.jbind/share/classes/jdk/incubator/jbind/TypeDependencyWalker.java:70-85 | an array is walked exactly as its element type, and a non-TYPEDEF delegate exactly as the type it wraps |
| `TypeDependencyWalker.TypesWalkInOrder` | src/jdk.incubator.jbind/share/classes/jdk/incubator/jbind/TypeDependencyWalker.java:93-95 | argument types are walked in order: the walk of the i-th comes right after the walks of those before it |
| `TypeDependencyWalker.DeclsWalkInOrder` | src/jdk.incubator.jbind/share/classes/jdk/incubator/jbind/TypeDependencyWalker.java:114-116 | declarations are walked in order: the walk of the i-th comes right after those before it and starts by offering it under the parent, unless it is a scope entered by then |
| `TypeDependencyWalker.AcceptedScopeWalksMembersInOrder` | src/jdk.incubator.jbind/share/classes/jdk/incubator/jbind/TypeDependencyWalker.java:108-119 | an accepted scope not yet entered is offered first, is entered, and then its members are walked in order under it, member i offered right after the walks of the members before it |
| `TypeDependencyWalker.AcceptedFunctionWalksReturnThenParams` | src/jdk.incubator.jbind/share/classes/jdk/incubator/jbind/TypeDependencyWalker.java:122-132 | an accepted function is offered, then its return type is walked, then its parameters in order, all under the function |
| `TypeDependencyWalker.AcceptedFunctionTypeWalksReturnThenArgs` | src/jdk.incubator.jbind/share/classes/jdk/incubator/jbind/TypeDependencyWalker.java:88-98 | an accepted function type is offered as an unnamed typedef, then its return type is walked, then its argument types in order, all from the same reference |
| `TypeDependencyWalker.SelfReferenceEnteredOnce` | src/jdk.incubator.jbind/share/classes/jdk/incubator/jbind/TypeDependencyWalker.java:40-41 | a struct whose field points back to it is offered once and its field once; the pointer back asks nothing more |
| `TypeDependencyWalker.Walker.VisitType` | src/jdk.incubator.jbind/share/classes/jdk/incubator/jbind/TypeDependencyWalker.java:61-104 | walking a type makes exactly the reference walk's handler calls, appended to the trace, and leaves loopDetection as the reference walk ends it; the walker's invariant is kept |
| `TypeDependencyWalker.Walker.VisitFunctionType` | src/jdk.incubator.jbind/share/classes/jdk/incubator/jbind/TypeDependencyWalker.java:88-98 | the same for a function type |
| `TypeDependencyWalker.Walker.VisitTypes` | src/jdk.incubator.jbind/share/classes/jdk/incubator/jbind/TypeDependencyWalker.java:93-95 | the same for the loop over a function type's argument types |
| `TypeDependencyWalker.Walker.VisitDecl` | src/jdk.incubator.jbind/share/classes/jdk/incubator/jbind/TypeDependencyWalker.java:106-157 | the same for a declaration under its parent |
| `TypeDependencyWalker.Walker.VisitOffered` | src/jdk.incubator.jbind/share/classes/jdk/incubator/jbind/TypeDependencyWalker.java:112-153 | the same for a declaration not yet entered: the handler is asked, an accepted scope is recorded, what is accepted is walked |
| `TypeDependencyWalker.Walker.VisitAccepted` | src/jdk.incubator.jbind/share/classes/jdk/incubator/jbind/TypeDependencyWalker.java:113-154 | the same for what an accepted declaration looks into |
| `TypeDependencyWalker.Walker.VisitMembers` | src/jdk.incubator.jbind/share/classes/jdk/incubator/jbind/TypeDependencyWalker.java:114-116 | the same for an accepted scope's members |
| `TypeDependencyWalker.Walker.VisitFunction` | src/jdk.incubator.jbind/share/classes/jdk/incubator/jbind/TypeDependencyWalker.java:122-132 | the same for an accepted function's return type and parameters |
| `TypeDependencyWalker.Walker.VisitDecls` | src/jdk.incubator.jbind/share/classes/jdk/incubator/jbind/TypeDependencyWalker.java:114-116 | the same for the loop over a list of declarations under one parent |
| `TypeDependencyWalker.WalkType` | src/jdk.incubator.jbind/share/classes/jdk/incubator/jbind/TypeDependencyWalker.java:51-54 | a fresh walker over a type asks the handler exactly the reference walk's questions, in order, starting with nothing entered, and ends with its invariant |
| `TypeDependencyWalker.WalkDeclaration` | src/jdk.incubator.jbind/share/classes/jdk/incubator/jbind/TypeDependencyWalker.java:56-59 | a fresh walker over a declaration, referenced from a new toplevel scope, asks exactly the reference walk's questions, in order, and ends with its invariant |
| `AnonymousNames.KindTag` | src/jdk.incubator.jbind/share/classes/jdk/incubator/jbind/AnonymousRegistry.java:98-119 | the kind part of a suffix is non-empty and has no underscore; a toplevel, typedef-free or non-parameter declaration is refused with IllegalArgumentException |
| `AnonymousNames.AnonymousRegistry.constructor` | src/jdk.incubator.jbind/share/classes/jdk/incubator/jbind/AnonymousRegistry.java:42-46 | a new registry is empty |
| `AnonymousNames.AnonymousRegistry.RegisterTypeVar` | src/jdk.incubator.jbind/share/classes/jdk/incubator/jbind/AnonymousRegistry.java:56-66 | a typedef of a declared record registers its name for that record when the record has no name of its own and none registered; nothing else changes |
| `AnonymousNames.AnonymousRegistry.GetName` | src/jdk.incubator.jbind/share/classes/jdk/incubator/jbind/AnonymousRegistry.java:73-88 | the name and the new registry are what getName derives: own name, else the registered one, else the naming scheme's, stored; then the typedef rule |
| `AnonymousNames.NamedKeepsName` | src/jdk.incubator.jbind/share/classes/jdk/incubator/jbind/AnonymousRegistry.java:48-54 | a declaration with a name is called by it whatever the parent, and only a typedef under a parent can change the registry |
| `AnonymousNames.NullParentNeedsName` | src/jdk.incubator.jbind/share/classes/jdk/incubator/jbind/AnonymousRegistry.java:68-76 | with a null parent the registry is only read, and IllegalStateException is thrown exactly for a nameless unregistered declaration |
| `AnonymousNames.RegistryOnlyGrows` | src/jdk.incubator.jbind/share/classes/jdk/incubator/jbind/AnonymousRegistry.java:63-81 | getName never removes or changes a registered name |
| `AnonymousNames.NameMemoised` | src/jdk.incubator.jbind/share/classes/jdk/incubator/jbind/AnonymousRegistry.java:77-85 | once a name is given, asking again with any parent gives the same name and leaves the registry alone |
| `AnonymousNames.TypedefNamesRecord` | src/jdk.incubator.jbind/share/classes/jdk/incubator/jbind/AnonymousRegistry.java:56-66 | a named typedef of a record gives an anonymous unregistered record the typedef's name, and changes nothing otherwise |
| `AnonymousNames.SuffixTextInjective` | src/jdk.incubator.jbind/share/classes/jdk/incubator/jbind/AnonymousRegistry.java:120-124 | a suffix text determines its kind tag, line and column |
| `AnonymousNames.SuffixInjective` | src/jdk.incubator.jbind/share/classes/jdk/incubator/jbind/AnonymousRegistry.java:95-125 | two equal suffixes come from the same kind at the same line and column |
| `AnonymousNames.ToplevelNamesDistinct` | src/jdk.incubator.jbind/share/classes/jdk/incubator/jbind/AnonymousRegistry.java:128-132 | under the toplevel scope, anonymous declarations at different positions get different names |
| `HeaderResolution.BaseName` | src/jdk.incubator.jbind/share/classes/jdk/incubator/jbind/HeaderResolver.java:55-56 | the file name cut at its last '.', or the whole name when it has none |
| `HeaderResolution.SafeFileName` | src/jdk.incubator.jbind/share/classes/jdk/incubator/jbind/HeaderResolver.java:54-58 | a valid, non-keyword Java identifier made from the base name; an empty base name throws |
| `HeaderResolution.HeaderInterfaceName` | src/jdk.incubator.jbind/share/classes/jdk/incubator/jbind/HeaderResolver.java:60-62 | a valid identifier: the safe file name followed by "_h" |
| `HeaderResolution.StaticForwarderName` | src/jdk.incubator.jbind/share/classes/jdk/incubator/jbind/HeaderResolver.java:64-66 | a valid identifier: the safe file name followed by "_lib" |
| `HeaderResolution.ClassNamesDiffer` | src/jdk.incubator.jbind/share/classes/jdk/incubator/jbind/HeaderResolver.java:60-66 | a header's interface class and its forwarder class are never the same class |
| `HeaderResolution.SanitisingMergesNames` | src/jdk.incubator.jbind/share/classes/jdk/incubator/jbind/HeaderResolver.java:54-62 | "a-b.h" and "a+b.h" get the same class name a_b_h |
| `HeaderResolution.PutIfAbsent` | src/jdk.incubator.jbind/share/classes/jdk/incubator/jbind/HeaderResolver.java:70 | the folder is mapped afterwards, earlier mappings are kept, and a new folder gets the given package |
| `HeaderResolution.FirstMappingWins` | src/jdk.incubator.jbind/share/classes/jdk/incubator/jbind/HeaderResolver.java:68-78 | a second mapping for the same folder is ignored |
| `HeaderResolution.BuiltinPackageSegments` | src/jdk.incubator.jbind/share/classes/jdk/incubator/jbind/HeaderResolver.java:49-50 | the built-in headers' package is clang_support directly under the default package, or alone when the default is empty |
| `HeaderResolution.NearestMapped` | src/jdk.incubator.jbind/share/classes/jdk/incubator/jbind/HeaderResolver.java:118-121 | the walk up stops at the longest mapped prefix of the folder, and finds none only when no prefix is mapped |
| `HeaderResolution.HeaderResolver.constructor` | src/jdk.incubator.jbind/share/classes/jdk/incubator/jbind/HeaderResolver.java:46-52 | the only mapping is the built-in headers' folder to its clang_support package; no header is known |
| `HeaderResolution.HeaderResolver.UsePackageForFolder` | src/jdk.incubator.jbind/share/classes/jdk/incubator/jbind/HeaderResolver.java:68-78 | the package map becomes its putIfAbsent; the header map is unchanged |
| `HeaderResolution.HeaderResolver.UseDefaultPackageForFolder` | src/jdk.incubator.jbind/share/classes/jdk/incubator/jbind/HeaderResolver.java:80-82 | the same with the default package |
| `HeaderResolution.HeaderResolver.FindNearest` | src/jdk.incubator.jbind/share/classes/jdk/incubator/jbind/HeaderResolver.java:116-121 | the loop finds the nearest mapped folder |
| `HeaderResolution.AppendSegments` | src/jdk.incubator.jbind/share/classes/jdk/incubator/jbind/HeaderResolver.java:127-131 | the loop appends each remaining component as an identifier, with no separator before the first one after an empty package |
| `HeaderResolution.HeaderResolver.InferPackage` | src/jdk.incubator.jbind/share/classes/jdk/incubator/jbind/HeaderResolver.java:136-140 | the loop joins every component of the folder, each as an identifier, with '.' |
| `HeaderResolution.HeaderResolver.ResolveHeaderPath` | src/jdk.incubator.jbind/share/classes/jdk/incubator/jbind/HeaderResolver.java:108-145 | a directory throws IllegalStateException; otherwise the package is derived and recorded for the folder, and the classes come from the file name; the header map is unchanged |
| `HeaderResolution.HeaderResolver.HeaderFor` | src/jdk.incubator.jbind/share/classes/jdk/incubator/jbind/HeaderResolver.java:147-158 | a null path means the built-in header; a path that is not a regular file throws IllegalArgumentException; a known path returns its remembered answer; otherwise it is resolved and remembered |
| `HeaderResolution.IdentifiersAreSegments` | src/jdk.incubator.jbind/share/classes/jdk/incubator/jbind/HeaderResolver.java:129 | each sanitised component is non-empty and has no '.' |
| `HeaderResolution.QualifiedSegments` | src/jdk.incubator.jbind/share/classes/jdk/incubator/jbind/HeaderResolver.java:127-131 | the loop's package splits at '.' into the base package's segments followed by the parts |
| `HeaderResolution.JoinSegments` | src/jdk.incubator.jbind/share/classes/jdk/incubator/jbind/HeaderResolver.java:140 | a joined package splits back into its parts |
| `HeaderResolution.DerivedPackageSegments` | src/jdk.incubator.jbind/share/classes/jdk/incubator/jbind/HeaderResolver.java:123-142 | a folder's package is its nearest mapped ancestor's package followed by the sanitised names of the folders in between, or the sanitised names of all its folders when none is mapped |
| `HeaderResolution.ResolveRecordsPackage` | src/jdk.incubator.jbind/share/classes/jdk/incubator/jbind/HeaderResolver.java:108-145 | resolving a header only adds a mapping for its folder, to the package the header gets, and the next header in that folder derives the same one |
| `HeaderResolution.HeaderForMemoised` | src/jdk.incubator.jbind/share/classes/jdk/incubator/jbind/HeaderResolver.java:157 | once headerFor has resolved a path, asking again gives the same answer and changes nothing |
| `HeaderResolution.HeaderForOnlyGrows` | src/jdk.incubator.jbind/share/classes/jdk/incubator/jbind/HeaderResolver.java:147-158 | headerFor never forgets or changes a remembered header or a folder's package |
| `SourceFactory.Put` | src/jdk.incubator.jbind/share/classes/jdk/incubator/jbind/JavaSourceFactory.java:113-135 | after add(d) the set maps d's name to d and still keeps each name once, in first-insertion order |
| `SourceFactory.Values` | src/jdk.incubator.jbind/share/classes/jdk/incubator/jbind/JavaSourceFactory.java:137-139 | members() has one declaration per name, in key (first-insertion) order |
| `SourceFactory.ValuesListsAll` | src/jdk.incubator.jbind/share/classes/jdk/incubator/jbind/JavaSourceFactory.java:137-139 | members() lists every declaration the set holds |
| `SourceFactory.PutAll` | src/jdk.incubator.jbind/share/classes/jdk/incubator/jbind/JavaSourceFactory.java:113-135 | adding declarations one after the other keeps the set well formed |
| `SourceFactory.DeclarationSet.constructor` | src/jdk.incubator.jbind/share/classes/jdk/incubator/jbind/JavaSourceFactory.java:98-105 | a new set is empty and keeps its description |
| `SourceFactory.DeclarationSet.Add` | src/jdk.incubator.jbind/share/classes/jdk/incubator/jbind/JavaSourceFactory.java:113-135 | the set's new contents are those of add(d) on the old contents |
| `SourceFactory.PutCases` | src/jdk.incubator.jbind/share/classes/jdk/incubator/jbind/JavaSourceFactory.java:120-134 | a new name is appended at the end; an equal redeclaration changes nothing; a different declaration under a known name replaces the old one in its place |
| `SourceFactory.PutAllOrder` | src/jdk.incubator.jbind/share/classes/jdk/incubator/jbind/JavaSourceFactory.java:98-135 | after a sequence of adds the names stand in order of first occurrence and each keeps the last declaration added under it |
| `SourceFactory.PutAllKeys` | src/jdk.incubator.jbind/share/classes/jdk/incubator/jbind/JavaSourceFactory.java:99-123 | the key order is the order of first occurrence |
| `SourceFactory.PutAllDecls` | src/jdk.incubator.jbind/share/classes/jdk/incubator/jbind/JavaSourceFactory.java:120-133 | a name is present exactly when some declaration had it, and holds the last such declaration |
| `SourceFactory.PutAllLast` | src/jdk.incubator.jbind/share/classes/jdk/incubator/jbind/JavaSourceFactory.java:120-133 | the same for one name |
| `SourceFactory.ValuesWereAdded` | src/jdk.incubator.jbind/share/classes/jdk/incubator/jbind/JavaSourceFactory.java:113-139 | every member of a set is a declaration that was added to it |
| `SourceFactory.ToBeIncludedRules` | src/jdk.incubator.jbind/share/classes/jdk/incubator/jbind/JavaSourceFactory.java:174-196 | an exclusion always wins; otherwise a declaration is taken exactly when included explicitly, or an enum, or a constant, or a non-scope whose file is a source |
| `SourceFactory.IncludePatternsNarrow` | src/jdk.incubator.jbind/share/classes/jdk/incubator/jbind/JavaSourceFactory.java:91-96 | with any include pattern the sources list is empty, so only explicit inclusions, enums and constants get through |
| `SourceFactory.JavaSourceFactory.constructor` | src/jdk.incubator.jbind/share/classes/jdk/incubator/jbind/JavaSourceFactory.java:87-96 | the four sets and the file map start empty; the sources are empty when either filter has includes, the configured paths otherwise |
| `SourceFactory.JavaSourceFactory.AddTo` | src/jdk.incubator.jbind/share/classes/jdk/incubator/jbind/JavaSourceFactory.java:268-295 | one add to one of the four sets, recorded as a step of the visitor |
| `SourceFactory.JavaSourceFactory.VisitDeclaration` | src/jdk.incubator.jbind/share/classes/jdk/incubator/jbind/JavaSourceFactory.java:300-307 | a declaration with a path is appended to that file's list; nothing else changes |
| `SourceFactory.JavaSourceFactory.Visit` | src/jdk.incubator.jbind/share/classes/jdk/incubator/jbind/JavaSourceFactory.java:258-307 | accepting the visitor performs exactly the declaration's steps: a toplevel scope visits its members only; structs and unions join the types; enums visit their constants; functions, global variables and constants join their sets; every non-toplevel declaration is then filed by its path |
| `SourceFactory.BucketOf` | src/jdk.incubator.jbind/share/classes/jdk/incubator/jbind/JavaSourceFactory.java:266-297 | structs and unions go to the type set, functions to the function set, global variables to the variable set, constants to the constant set, anything else to none; the declaration always belongs to the set chosen, and the visit adds it there and then records it visited |
| `SourceFactory.JavaSourceFactory.Classify` | src/jdk.incubator.jbind/share/classes/jdk/incubator/jbind/JavaSourceFactory.java:266-296 | what a non-toplevel declaration does before visitDeclaration |
| `SourceFactory.JavaSourceFactory.VisitMembers` | src/jdk.incubator.jbind/share/classes/jdk/incubator/jbind/JavaSourceFactory.java:259-277 | the members accept the visitor in order |
| `SourceFactory.JavaSourceFactory.CandidateList` | src/jdk.incubator.jbind/share/classes/jdk/incubator/jbind/JavaSourceFactory.java:218-225 | the candidates are the types, the explicitly included constants, the variables and the functions, each set in its order |
| `SourceFactory.JavaSourceFactory.Generate` | src/jdk.incubator.jbind/share/classes/jdk/incubator/jbind/JavaSourceFactory.java:211-227 | generate visits the dependencies of every included toplevel member in order, stops at the first exception the collector throws, and otherwise returns the candidates |
| `SourceFactory.JavaSourceFactory.FirstPass` | src/jdk.incubator.jbind/share/classes/jdk/incubator/jbind/JavaSourceFactory.java:213-216 | the first pass performs exactly the steps of its included members' dependencies, and reports the exception that stops it |
| `SourceFactory.JavaSourceFactory.GenerateMember` | src/jdk.incubator.jbind/share/classes/jdk/incubator/jbind/JavaSourceFactory.java:214-216 | one toplevel member: skipped when not included, else its dependencies are collected and visited |
| `SourceFactory.GenerateRunStops` | src/jdk.incubator.jbind/share/classes/jdk/incubator/jbind/JavaSourceFactory.java:213-216 | once the collector has thrown, later members change nothing |
| `SourceFactory.EventsWellSorted` | src/jdk.incubator.jbind/share/classes/jdk/incubator/jbind/JavaSourceFactory.java:258-297 | only functions, global variables, structs and unions, and constants enter their sets |
| `SourceFactory.MembersEventsWellSorted` | src/jdk.incubator.jbind/share/classes/jdk/incubator/jbind/JavaSourceFactory.java:259-277 | the same over a list of members |
| `SourceFactory.GroupedByFile` | src/jdk.incubator.jbind/share/classes/jdk/incubator/jbind/JavaSourceFactory.java:300-307 | a file is in the file map exactly when a visited declaration has it as path, and its list is those declarations in visiting order |
| `SourceFactory.ReplayTables` | src/jdk.incubator.jbind/share/classes/jdk/incubator/jbind/JavaSourceFactory.java:268-295 | each set is the declarations added to it, added one after the other |
| `SourceFactory.SetBelongs` | src/jdk.incubator.jbind/share/classes/jdk/incubator/jbind/JavaSourceFactory.java:258-297 | every member of a set is of that set's kind |
| `SourceFactory.CandidatesOrdered` | src/jdk.incubator.jbind/share/classes/jdk/incubator/jbind/JavaSourceFactory.java:218-225 | the candidates come types first, then constants, then variables, then functions, and every constant among them is one the symbol filter includes |
| `LayoutUtils.FirstNamed` | src/jdk.incubator.jbind/share/classes/jdk/incubator/jbind/LayoutUtils.java:31-33 | a layout of the list with that name, or none exactly when no layout has it |
| `LayoutUtils.GetFieldLayout` | src/jdk.incubator.jbind/share/classes/jdk/incubator/jbind/LayoutUtils.java:30-34 | a field of the flattened group with that name; NoSuchElementException exactly when no field has it |
| `LayoutUtils.Innermost` | src/jdk.incubator.jbind/share/classes/jdk/incubator/jbind/LayoutUtils.java:36-44 | the innermost element is not a sequence layout |
| `LayoutUtils.Dimension` | src/jdk.incubator.jbind/share/classes/jdk/incubator/jbind/LayoutUtils.java:36-44 | the loop returns the number of nested sequence layouts and the innermost element |
| `LayoutUtils.DimensionRoundTrip` | src/jdk.incubator.jbind/share/classes/jdk/incubator/jbind/LayoutUtils.java:36-44 | the dimension loses nothing: wrapping the element back in the sequences passed gives the layout again |
| `LayoutUtils.RewrapDimension` | src/jdk.incubator.jbind/share/classes/jdk/incubator/jbind/LayoutUtils.java:36-44 | a non-sequence element wrapped in n sequences has dimension n and that element |
| `LayoutUtils.IsIncomplete` | src/jdk.incubator.jbind/share/classes/jdk/incubator/jbind/LayoutUtils.java:46-55 | true exactly when some argument layout is a sequence of unknown length; the return layout is not looked at |
| `LayoutUtils.ExpandAllNamed` | src/jdk.incubator.jbind/share/classes/jdk/incubator/jbind/LayoutUtils.java:11-23 | every layout an expansion yields has a name |
| `LayoutUtils.FlattenAllNamed` | src/jdk.incubator.jbind/share/classes/jdk/incubator/jbind/LayoutUtils.java:25-28 | every field of a flattened group has a name, so getFieldLayout's name().get() never fails |
| `LayoutUtils.FlattenAppend` | src/jdk.incubator.jbind/share/classes/jdk/incubator/jbind/LayoutUtils.java:25-28 | flattening distributes over concatenation of member lists |
| `LayoutUtils.FlattenNamedIdentity` | src/jdk.incubator.jbind/share/classes/jdk/incubator/jbind/LayoutUtils.java:11-28 | members that all have names are their own fields |
| `LayoutUtils.FlattenIdempotent` | src/jdk.incubator.jbind/share/classes/jdk/incubator/jbind/LayoutUtils.java:11-28 | the fields of the fields are the fields |
| `LayoutUtils.FlattenAt` | src/jdk.incubator.jbind/share/classes/jdk/incubator/jbind/LayoutUtils.java:25-28 | member i contributes its expansion between the fields before it and those after it |
| `LayoutUtils.NamedMemberIsField` | src/jdk.incubator.jbind/share/classes/jdk/incubator/jbind/LayoutUtils.java:20-22 | a named member is a field, at its own place |
| `LayoutUtils.UnnamedLeafDropped` | src/jdk.incubator.jbind/share/classes/jdk/incubator/jbind/LayoutUtils.java:16-19 | unnamed padding and any other unnamed non-group is dropped |
| `LayoutUtils.AnonymousGroupInlined` | src/jdk.incubator.jbind/share/classes/jdk/incubator/jbind/LayoutUtils.java:13-15 | the fields of an anonymous struct or union take its place |
| `LayoutUtils.NestedFieldFound` | src/jdk.incubator.jbind/share/classes/jdk/incubator/jbind/LayoutUtils.java:11-34 | a field of an anonymous struct nested in a struct is found by name in the outer struct; a padding name is not |
| `ConstantHelper.LibrariesDesc` | src/jdk.incubator.jbind/share/classes/jdk/incubator/jbind/ConstantHelper.java:423-428 | a dynamic constant whose first argument is the libraries bootstrap handle, followed by each library name in order |
| `ConstantHelper.EmitConShort` | src/jdk.incubator.jbind/share/classes/jdk/incubator/jbind/ConstantHelper.java:287-305 | one instruction that does not touch the constant pool |
| `ConstantHelper.EmitConShortPushes` | src/jdk.incubator.jbind/share/classes/jdk/incubator/jbind/ConstantHelper.java:287-305 | the instruction leaves exactly the value on the stack, whichever of ICONST, BIPUSH or SIPUSH is chosen |
| `ConstantHelper.EmitConShortSmallest` | src/jdk.incubator.jbind/share/classes/jdk/incubator/jbind/ConstantHelper.java:287-305 | no single instruction outside the constant pool pushes the value in fewer code bytes |
| `ConstantHelper.EmitConInt` | src/jdk.incubator.jbind/share/classes/jdk/incubator/jbind/ConstantHelper.java:307-313 | one instruction, which reads the constant pool exactly when the value does not fit in a short |
| `ConstantHelper.EmitConIntPushes` | src/jdk.incubator.jbind/share/classes/jdk/incubator/jbind/ConstantHelper.java:307-313 | it leaves exactly the value on the stack |
| `ConstantHelper.EmitConLong` | src/jdk.incubator.jbind/share/classes/jdk/incubator/jbind/ConstantHelper.java:315-327 | the constant pool is read exactly when the value does not fit in a short, and holds a long entry exactly when the value does not fit in an int |
| `ConstantHelper.EmitConLongPushes` | src/jdk.incubator.jbind/share/classes/jdk/incubator/jbind/ConstantHelper.java:315-327 | the code leaves exactly the long value on the stack, the int path widened with I2L |
| `ConstantHelper.EmitReturn` | src/jdk.incubator.jbind/share/classes/jdk/incubator/jbind/ConstantHelper.java:399-419 | every class gets a return instruction; the IllegalArgumentException branch is never reached |
| `ConstantHelper.EmitReturnAccepts` | src/jdk.incubator.jbind/share/classes/jdk/incubator/jbind/ConstantHelper.java:399-419 | the return instruction of a class returns exactly the values of that class's kind, and is stuck on any other |
| `ConstantHelper.EmitReturnVoid` | src/jdk.incubator.jbind/share/classes/jdk/incubator/jbind/ConstantHelper.java:403-404 | a void getter returns nothing |
| `ConstantHelper.GetterReturns` | src/jdk.incubator.jbind/share/classes/jdk/incubator/jbind/ConstantHelper.java:361-377 | a getter body that pushes a value of its class, followed by its return, returns that value |
| `ConstantHelper.IntGetterReturns` | src/jdk.incubator.jbind/share/classes/jdk/incubator/jbind/ConstantHelper.java:237-238 | an int, byte, short or char constant's getter returns the constant's low 32 bits, as intValue() gives them |
| `ConstantHelper.LongGetterReturns` | src/jdk.incubator.jbind/share/classes/jdk/incubator/jbind/ConstantHelper.java:241-242 | a long constant's getter returns the constant |
| `ConstantHelper.CondyGetterReturns` | src/jdk.incubator.jbind/share/classes/jdk/incubator/jbind/ConstantHelper.java:395-397 | a getter loading a dynamic constant returns it |
| `ConstantHelper.VarHandleDesc` | src/jdk.incubator.jbind/share/classes/jdk/incubator/jbind/ConstantHelper.java:434-465 | the var handle bootstrap takes the parent layout when there is one, the carrier (long for an address), the field's name for a field, then one sequence step per nested sequence; an address handle is wrapped in asAddressVarHandle |
| `ConstantHelper.VarHandleArgs` | src/jdk.incubator.jbind/share/classes/jdk/incubator/jbind/ConstantHelper.java:445-460 | the loop builds the root layout, the carrier and the path in that order |
| `ConstantHelper.SelectSequences` | src/jdk.incubator.jbind/share/classes/jdk/incubator/jbind/ConstantHelper.java:456-459 | stepping into every nested sequence reaches the innermost element |
| `ConstantHelper.VarHandlePathResolves` | src/jdk.incubator.jbind/share/classes/jdk/incubator/jbind/ConstantHelper.java:434-465 | the path leads from the root layout to the innermost element of the field's layout |
| `ConstantHelper.DescriptorToInternalName` | src/jdk.incubator.jbind/share/classes/jdk/incubator/jbind/ConstantHelper.java:276-278 | drops the first and last character; a string shorter than two throws IndexOutOfBoundsException |
| `ConstantHelper.InternalNameRoundTrip` | src/jdk.incubator.jbind/share/classes/jdk/incubator/jbind/ConstantHelper.java:155-157 | the internal name read back from a class descriptor is the binary name with '.' replaced by '/' |
| `ConstantHelper.PoolMatchesAdd` | src/jdk.incubator.jbind/share/classes/jdk/incubator/jbind/ConstantHelper.java:361-377 | writing a method under a new name and pooling its getter keeps pool and methods in step |
| `ConstantHelper.ConstantHelper.constructor` | src/jdk.incubator.jbind/share/classes/jdk/incubator/jbind/ConstantHelper.java:152-196 | the class is named after the parent with "$constants"; the pool and the methods start empty |
| `ConstantHelper.ConstantHelper.EmitGetter` | src/jdk.incubator.jbind/share/classes/jdk/incubator/jbind/ConstantHelper.java:361-377 | a pooled name gives its getter back and writes nothing; a new name writes one method of the body and the return of its class and pools its getter; after build() it throws NullPointerException |
| `ConstantHelper.ConstantHelper.EmitCondyGetter` | src/jdk.incubator.jbind/share/classes/jdk/incubator/jbind/ConstantHelper.java:395-397 | a new getter loads the dynamic constant and returns it |
| `ConstantHelper.ConstantHelper.AddLayout` | src/jdk.incubator.jbind/share/classes/jdk/incubator/jbind/ConstantHelper.java:207-209 | the getter is named "$LAYOUT" after the Java name and loads the layout |
| `ConstantHelper.ConstantHelper.AddVarHandle` | src/jdk.incubator.jbind/share/classes/jdk/incubator/jbind/ConstantHelper.java:211-213 | the getter is named "$VH" and returns a VarHandle; a new name appends exactly one getter that loads the var handle constant (root layout, carrier, path) and returns it; a pooled name writes nothing |
| `ConstantHelper.ConstantHelper.AddMethodHandle` | src/jdk.incubator.jbind/share/classes/jdk/incubator/jbind/ConstantHelper.java:215-217 | the getter is named "$MH" and loads the downcall handle |
| `ConstantHelper.ConstantHelper.AddAddress` | src/jdk.incubator.jbind/share/classes/jdk/incubator/jbind/ConstantHelper.java:219-221 | the getter is named "$ADDR" and loads the global variable's address |
| `ConstantHelper.ConstantHelper.AddFunctionDesc` | src/jdk.incubator.jbind/share/classes/jdk/incubator/jbind/ConstantHelper.java:223-225 | the getter is named "$DESC" and loads the function descriptor |
| `ConstantHelper.ConstantHelper.AddConstant` | src/jdk.incubator.jbind/share/classes/jdk/incubator/jbind/ConstantHelper.java:227-256 | IllegalStateException exactly for boolean, void or an address given a double; ClassCastException exactly for a value of the wrong kind for a primitive; a skipped constant exactly for a reference class other than the value's; for a new name exactly one getter is appended: int-like and long constants get the shortest push, float and double load their text, an address loads the address or the C string, a String, Long or Double class loads the value itself, each followed by its return; a pooled name, an error or a skipped constant writes nothing |
| `ConstantHelper.ConstantHelper.Build` | src/jdk.incubator.jbind/share/classes/jdk/incubator/jbind/ConstantHelper.java:258-263 | the class file holds every method written, in order; the writer is gone afterwards, and a second build throws NullPointerException |
| `SourceBuilder.SourceOnlyBuilder.constructor` | src/jdk.incubator.jbind/share/classes/jdk/incubator/jbind/JavaSourceBuilder.java:69-77 | a builder starts with an empty buffer at level zero |
| `SourceBuilder.SourceOnlyBuilder.Build` | src/jdk.incubator.jbind/share/classes/jdk/incubator/jbind/JavaSourceBuilder.java:145-149 | returns the text written so far, and the buffer is gone afterwards |
| `SourceBuilder.SourceOnlyBuilder.IncrAlign` | src/jdk.incubator.jbind/share/classes/jdk/incubator/jbind/JavaSourceBuilder.java:157-159 | one level more, text unchanged |
| `SourceBuilder.SourceOnlyBuilder.DecrAlign` | src/jdk.incubator.jbind/share/classes/jdk/incubator/jbind/JavaSourceBuilder.java:161-163 | one level less, text unchanged |
| `SourceBuilder.SourceOnlyBuilder.Indent` | src/jdk.incubator.jbind/share/classes/jdk/incubator/jbind/JavaSourceBuilder.java:151-155 | the loop appends four spaces per level, nothing at level zero or below |
| `SourceText.IndentationIsSpaces` | src/jdk.incubator.jbind/share/classes/jdk/incubator/jbind/JavaSourceBuilder.java:151-155 | the indentation is exactly 4 × align spaces for a positive level and empty otherwise |
| `SourceBuilder.SourceOnlyBuilder.AddLineBreak` | src/jdk.incubator.jbind/share/classes/jdk/incubator/jbind/JavaSourceBuilder.java:165-167 | appends one line break |
| `SourceBuilder.SourceOnlyBuilder.AddLineBreaks` | src/jdk.incubator.jbind/share/classes/jdk/incubator/jbind/JavaSourceBuilder.java:169-174 | the loop appends the requested line breaks |
| `SourceText.NewlinesCount` | src/jdk.incubator.jbind/share/classes/jdk/incubator/jbind/JavaSourceBuilder.java:169-174 | addLineBreaks(n) writes exactly n line breaks, none when n is not positive |
| `SourceBuilder.SourceOnlyBuilder.AddImportSection` | src/jdk.incubator.jbind/share/classes/jdk/incubator/jbind/JavaSourceBuilder.java:98-105 | appends the import section and nothing else |
| `SourceBuilder.SourceOnlyBuilder.AddPackagePrefix` | src/jdk.incubator.jbind/share/classes/jdk/incubator/jbind/JavaSourceBuilder.java:87-96 | appends the header comment, the package statement and the imports |
| `SourceText.PackageStatement` | src/jdk.incubator.jbind/share/classes/jdk/incubator/jbind/JavaSourceBuilder.java:87-96 | the file declares a package exactly when the package name is not empty, and then the named one; what the buffer held stays in front |
| `SourceBuilder.SourceOnlyBuilder.ClassBegin` | src/jdk.incubator.jbind/share/classes/jdk/incubator/jbind/JavaSourceBuilder.java:111-117 | writes the class header at the current level and goes one level in |
| `SourceBuilder.SourceOnlyBuilder.ClassBeginWith` | src/jdk.incubator.jbind/share/classes/jdk/incubator/jbind/JavaSourceBuilder.java:119-133 | the same with static, the superclass when not empty and the interfaces joined by ", " |
| `SourceBuilder.SourceOnlyBuilder.CloseBracket` | src/jdk.incubator.jbind/share/classes/jdk/incubator/jbind/JavaSourceBuilder.java:139-143 | goes one level out and writes the bracket there, so a classBegin and a closeBracket restore the level |
| `SourceBuilder.SourceOnlyBuilder.ClassEnd` | src/jdk.incubator.jbind/share/classes/jdk/incubator/jbind/JavaSourceBuilder.java:135-137 | the same as closeBracket |
| `SourceBuilder.SourceOnlyBuilder.BeginGetter` | src/jdk.incubator.jbind/share/classes/jdk/incubator/jbind/JavaSourceBuilder.java:264-278 | the getter head with one "long idx<i>" per dimension, comma separated; one level in |
| `SourceBuilder.SourceOnlyBuilder.BeginSetter` | src/jdk.incubator.jbind/share/classes/jdk/incubator/jbind/JavaSourceBuilder.java:280-290 | the setter head with each index followed by ", ", then the value; one level in |
| `SourceText.IdxDecls` | src/jdk.incubator.jbind/share/classes/jdk/incubator/jbind/JavaSourceBuilder.java:270-275 | the index parameters are "long idx0", "long idx1", ..., one per dimension |
| `SourceText.SetterExtendsGetter` | src/jdk.incubator.jbind/share/classes/jdk/incubator/jbind/JavaSourceBuilder.java:264-290 | the setter takes the getter's index parameters, in the same order, then the value |
| `SourceBuilder.SourceOnlyBuilder.EmitVHGetter` | src/jdk.incubator.jbind/share/classes/jdk/incubator/jbind/JavaSourceBuilder.java:342-352 | reads through the var handle at the address, passing ", idx<i>" once per dimension |
| `SourceBuilder.SourceOnlyBuilder.EmitVHSetter` | src/jdk.incubator.jbind/share/classes/jdk/incubator/jbind/JavaSourceBuilder.java:354-363 | writes through the var handle at the address with the same indices, then the value |
| `SourceText.AccessorsPassDeclaredIndices` | src/jdk.incubator.jbind/share/classes/jdk/incubator/jbind/JavaSourceBuilder.java:264-363 | getter and setter bodies pass exactly the indices their heads declare, in order |
| `SourceText.IdxNamesDistinct` | src/jdk.incubator.jbind/share/classes/jdk/incubator/jbind/JavaSourceBuilder.java:274 | distinct positions give distinct index names |
| `SourceText.TypeToLayoutName` | src/jdk.incubator.jbind/share/classes/jdk/incubator/jbind/SourceOnlyBuilder.java:241-265 | the name of the first C layout the scalar matches; an error when it matches none |
| `SourceText.FirstMatch` | src/jdk.incubator.jbind/share/classes/jdk/incubator/jbind/SourceOnlyBuilder.java:241-265 | the first matching position from the given one on, or none when no later C layout matches |
| `SourceText.TypeToLayoutNameSound` | src/jdk.incubator.jbind/share/classes/jdk/incubator/jbind/SourceOnlyBuilder.java:233-265 | typeToLayoutName gives the name of the first C layout that the scalar matches by size, byte order, alignment and ABI class, and fails exactly when none matches |
| `SourceText.CLayoutsHaveNames` | src/jdk.incubator.jbind/share/classes/jdk/incubator/jbind/SourceOnlyBuilder.java:241-265 | every C layout of the table is rendered by a name, the 32- and 64-bit integers and the pointer by their own |
| `SourceBuilder.SourceOnlyBuilder.AddLayout` | src/jdk.incubator.jbind/share/classes/jdk/incubator/jbind/SourceOnlyBuilder.java:290-329 | appends exactly the layout's rendering at the current level and keeps the level; the C_COMPLEX_LONGDOUBLE object is rendered by that name; fails, as the source does, on a scalar without a C name |
| `SourceBuilder.SourceOnlyBuilder.AddName` | src/jdk.incubator.jbind/share/classes/jdk/incubator/jbind/SourceOnlyBuilder.java:326-328 | a named layout ends with .withName("name") |
| `SourceBuilder.SourceOnlyBuilder.AddSequenceLayout` | src/jdk.incubator.jbind/share/classes/jdk/incubator/jbind/SourceOnlyBuilder.java:293-299 | MemoryLayout.ofSequence(, the count only when present, the element |
| `SourceBuilder.SourceOnlyBuilder.AddGroupLayout` | src/jdk.incubator.jbind/share/classes/jdk/incubator/jbind/SourceOnlyBuilder.java:300-321 | the C_COMPLEX_LONGDOUBLE object (by identity) as "C_COMPLEX_LONGDOUBLE" and its name; any other group as ofStruct or ofUnion, the members one per line one level in, separated by ",\n" |
| `SourceBuilder.SourceOnlyBuilder.AddMembers` | src/jdk.incubator.jbind/share/classes/jdk/incubator/jbind/SourceOnlyBuilder.java:305-318 | the members' renderings in order; the first failing member stops the loop |
| `SourceText.AppendLayoutOk` | src/jdk.incubator.jbind/share/classes/jdk/incubator/jbind/SourceOnlyBuilder.java:290-329 | rendering a layout succeeds exactly when every scalar inside it has a C name |
| `SourceText.AppendMembersOk` | src/jdk.incubator.jbind/share/classes/jdk/incubator/jbind/SourceOnlyBuilder.java:305-318 | the same for a list of members |
| `SourceText.AppendLayoutPrefix` | src/jdk.incubator.jbind/share/classes/jdk/incubator/jbind/SourceOnlyBuilder.java:290-329 | rendering only appends: the buffer's old text stays in front |
| `SourceText.ComplexLongDoubleByIdentity` | src/jdk.incubator.jbind/share/classes/jdk/incubator/jbind/SourceOnlyBuilder.java:300-303 | the C_COMPLEX_LONGDOUBLE object renders as its name; an otherwise equal group that is not that object renders starting with ofStruct or ofUnion |
| `SourceText.GroupWrittenOut` | src/jdk.incubator.jbind/share/classes/jdk/incubator/jbind/SourceOnlyBuilder.java:300-321 | every renderable group other than C_COMPLEX_LONGDOUBLE renders starting with ofStruct( or ofUnion( |
| `SourceText.AppendMembersPrefix` | src/jdk.incubator.jbind/share/classes/jdk/incubator/jbind/SourceOnlyBuilder.java:305-318 | the same for a list of members |
| `SourceText.MembersErrPersists` | src/jdk.incubator.jbind/share/classes/jdk/incubator/jbind/SourceOnlyBuilder.java:305-318 | once a member fails, the whole member list fails the same way |
| `SourceBuilder.SourceOnlyBuilder.AddNamedLayout` | src/jdk.incubator.jbind/share/classes/jdk/incubator/jbind/SourceOnlyBuilder.java:283-288 | a public constant named by getLayoutName, holding the layout's rendering |
| `SourceText.NamedLayoutOk` | src/jdk.incubator.jbind/share/classes/jdk/incubator/jbind/SourceOnlyBuilder.java:283-288 | a named layout constant is written exactly when its layout can be rendered |
| `SourceBuilder.SourceOnlyBuilder.AddFunctionDescriptor` | src/jdk.incubator.jbind/share/classes/jdk/incubator/jbind/SourceOnlyBuilder.java:357-383 | FunctionDescriptor.of with the return layout, or ofVoid without one; a comma after the return layout only when arguments follow |
| `SourceBuilder.SourceOnlyBuilder.AddArgumentLines` | src/jdk.incubator.jbind/share/classes/jdk/incubator/jbind/SourceOnlyBuilder.java:366-381 | the argument layouts one per line, one level in |
| `SourceText.FunctionDescriptorRenderable` | src/jdk.incubator.jbind/share/classes/jdk/incubator/jbind/SourceOnlyBuilder.java:357-383 | a descriptor is written exactly when its return layout, if any, and all its argument layouts can be rendered |
| `SourceBuilder.SourceOnlyBuilder.DescribeStructLayout` | src/jdk.incubator.jbind/share/classes/jdk/incubator/jbind/SourceOnlyBuilder.java:225-231 | writes the struct's $LAYOUT constant and returns its name |
| `SourceBuilder.SourceOnlyBuilder.DescribeFunction` | src/jdk.incubator.jbind/share/classes/jdk/incubator/jbind/SourceOnlyBuilder.java:212-222 | writes a private descriptor constant and returns its name |
| `SourceBuilder.SourceOnlyBuilder.DescribeMethodHandle` | src/jdk.incubator.jbind/share/classes/jdk/incubator/jbind/SourceOnlyBuilder.java:173-209 | writes a lazily initialised method handle field and its getter around the descriptor, and returns the field's name; fails when the descriptor cannot be rendered |
| `SourceBuilder.SourceOnlyBuilder.MethodHandleOpen` | src/jdk.incubator.jbind/share/classes/jdk/incubator/jbind/SourceOnlyBuilder.java:175-192 | the text before the descriptor, three levels in |
| `SourceBuilder.SourceOnlyBuilder.MethodHandleField` | src/jdk.incubator.jbind/share/classes/jdk/incubator/jbind/SourceOnlyBuilder.java:175-182 | the field and the head of its getter |
| `SourceBuilder.SourceOnlyBuilder.MethodHandleLookupOpen` | src/jdk.incubator.jbind/share/classes/jdk/incubator/jbind/SourceOnlyBuilder.java:183-192 | the lookup on first use, up to the descriptor |
| `SourceBuilder.SourceOnlyBuilder.EmitDowncallArgs` | src/jdk.incubator.jbind/share/classes/jdk/incubator/jbind/SourceOnlyBuilder.java:186-192 | the libraries, the symbol's name and the method type's descriptor |
| `SourceBuilder.SourceOnlyBuilder.MethodHandleClose` | src/jdk.incubator.jbind/share/classes/jdk/incubator/jbind/SourceOnlyBuilder.java:194-209 | the text after the descriptor, back at the starting level |
| `SourceBuilder.SourceOnlyBuilder.AddFunction` | src/jdk.incubator.jbind/share/classes/jdk/incubator/jbind/JavaSourceBuilder.java:176-226 | the function's method handle, then a static wrapper passing each parameter on in order and rethrowing any failure as AssertionError; fails exactly when the name or descriptor cannot be written |
| `SourceText.AppendFunctionOk` | src/jdk.incubator.jbind/share/classes/jdk/incubator/jbind/JavaSourceBuilder.java:176-226 | a function is written exactly when it has a name, its library symbol is found and every layout of its descriptor has a C name |
| `SourceBuilder.SourceOnlyBuilder.EmitFunction` | src/jdk.incubator.jbind/share/classes/jdk/incubator/jbind/JavaSourceBuilder.java:180-226 | the method handle, then the wrapper, with the names resolved |
| `SourceBuilder.SourceOnlyBuilder.EmitParameter` | src/jdk.incubator.jbind/share/classes/jdk/incubator/jbind/JavaSourceBuilder.java:187-201 | an address parameter is declared Addressable and passed as its address; an unnamed one is called x<i> |
| `SourceBuilder.SourceOnlyBuilder.EmitParameters` | src/jdk.incubator.jbind/share/classes/jdk/incubator/jbind/JavaSourceBuilder.java:184-207 | the declarations joined by ", ", the variadic Object... last; returns one argument expression per parameter, the variadic array last |
| `SourceBuilder.SourceOnlyBuilder.EmitWrapperHead` | src/jdk.incubator.jbind/share/classes/jdk/incubator/jbind/JavaSourceBuilder.java:182-208 | the wrapper's signature, opening its body one level in |
| `SourceBuilder.SourceOnlyBuilder.EmitWrapperBody` | src/jdk.incubator.jbind/share/classes/jdk/incubator/jbind/JavaSourceBuilder.java:209-225 | the call inside try, then the catch, back at the starting level |
| `SourceBuilder.SourceOnlyBuilder.EmitWrapperCall` | src/jdk.incubator.jbind/share/classes/jdk/incubator/jbind/JavaSourceBuilder.java:209-217 | the call through the method handle, cast unless the return class is void |
| `SourceBuilder.SourceOnlyBuilder.EmitWrapperCatch` | src/jdk.incubator.jbind/share/classes/jdk/incubator/jbind/JavaSourceBuilder.java:218-225 | any failure rethrown as AssertionError; both blocks closed |
| `SourceText.ParamDecls` | src/jdk.incubator.jbind/share/classes/jdk/incubator/jbind/JavaSourceBuilder.java:186-202 | one declaration per parameter |
| `SourceText.ParamExprs` | src/jdk.incubator.jbind/share/classes/jdk/incubator/jbind/JavaSourceBuilder.java:186-202 | one argument expression per parameter |
| `SourceText.ParamExprsAt` | src/jdk.incubator.jbind/share/classes/jdk/incubator/jbind/JavaSourceBuilder.java:186-202 | the i-th argument expression is that of the i-th parameter |
| `SourceText.ArgExprs` | src/jdk.incubator.jbind/share/classes/jdk/incubator/jbind/JavaSourceBuilder.java:185-207 | one expression per parameter, then the variadic array |
| `SourceText.WrapperPassesParameters` | src/jdk.incubator.jbind/share/classes/jdk/incubator/jbind/JavaSourceBuilder.java:176-226 | each parameter is passed on under the name it is declared with, in order; an address parameter is declared Addressable and passed as its address; the variadic array comes last under its declared name |
| `SourceText.AllParamNames` | src/jdk.incubator.jbind/share/classes/jdk/incubator/jbind/JavaSourceBuilder.java:188-206 | one name per parameter, then the variadic one |
| `SourceText.ParamNameAt` | src/jdk.incubator.jbind/share/classes/jdk/incubator/jbind/JavaSourceBuilder.java:188-193 | the i-th name is the safe name of a named C parameter, a made-up x<i> otherwise |
| `SourceText.GeneratedNameShape` | src/jdk.incubator.jbind/share/classes/jdk/incubator/jbind/JavaSourceBuilder.java:188-206 | a made-up name is "x" and a decimal number |
| `SourceText.ParamNamesDistinct` | src/jdk.incubator.jbind/share/classes/jdk/incubator/jbind/JavaSourceBuilder.java:186-207 | the wrapper's parameters have distinct names when the named C parameters have distinct safe names, none of the made-up shape |
| `SourceText.VarargsWithoutNamedParamsAsWritten` | src/jdk.incubator.jbind/share/classes/jdk/incubator/jbind/JavaSourceBuilder.java:200-205 | as written, a variadic function without named parameters gets the parameter list "(, Object... x0)" |
| `SourceText.ParamListJoinsDecls` | src/jdk.incubator.jbind/share/classes/jdk/incubator/jbind/JavaSourceBuilder.java:200-205 | the corrected parameter list is all the declarations, the variadic one last, separated by ", " |
| `SourceBuilder.SourceOnlyBuilder.EmitLiteral` | src/jdk.incubator.jbind/share/classes/jdk/incubator/jbind/SourceOnlyBuilder.java:71-90 | appends exactly the literal of the value for its class |
| `SourceBuilder.SourceOnlyBuilder.AddConstant` | src/jdk.incubator.jbind/share/classes/jdk/incubator/jbind/SourceOnlyBuilder.java:64-93 | nothing but the indentation for an address or segment constant; otherwise the declaration and its literal; a double constant without a Double value fails after the declaration up to "=" |
| `SourceText.IntegralLiteralDenotesValue` | src/jdk.incubator.jbind/share/classes/jdk/incubator/jbind/SourceOnlyBuilder.java:74-90 | an integral constant is written as a decimal long literal, cast to its class unless long, that reads back as the value |
| `SourceText.DoubleLiteral` | src/jdk.incubator.jbind/share/classes/jdk/incubator/jbind/SourceOnlyBuilder.java:77-86 | a finite double is its text with "d"; any other is built from its text with Double.valueOf |
| `SourceBuilder.SourceOnlyBuilder.AddLibraries` | src/jdk.incubator.jbind/share/classes/jdk/incubator/jbind/SourceOnlyBuilder.java:267-271 | the library lookups of the generated class |
| `SourceText.QuoteAll` | src/jdk.incubator.jbind/share/classes/jdk/incubator/jbind/SourceOnlyBuilder.java:273-277 | each element quoted |
| `SourceText.IndexFrom` | src/jdk.incubator.jbind/share/classes/jdk/incubator/jbind/SourceOnlyBuilder.java:273-277 | the position of the next comma or the length; used to read the array back |
| `SourceText.ParseQuotedRoundTrip` | src/jdk.incubator.jbind/share/classes/jdk/incubator/jbind/SourceOnlyBuilder.java:273-277 | quoted, comma-separated elements without quotes in them read back as themselves |
| `SourceText.StringArrayRoundTrip` | src/jdk.incubator.jbind/share/classes/jdk/incubator/jbind/SourceOnlyBuilder.java:273-277 | stringArray loses nothing: an array initialiser of strings without quotes reads back as the strings |
| `SourceBuilder.SourceOnlyBuilder.AddAddressLookup` | src/jdk.incubator.jbind/share/classes/jdk/incubator/jbind/SourceOnlyBuilder.java:396-399 | appends the lookup of the symbol |
| `SourceBuilder.SourceOnlyBuilder.AddAddress` | src/jdk.incubator.jbind/share/classes/jdk/incubator/jbind/SourceOnlyBuilder.java:385-390 | the $ADDR constant of a global, looked up by symbol |
| `SourceBuilder.SourceOnlyBuilder.EmitSequenceElements` | src/jdk.incubator.jbind/share/classes/jdk/incubator/jbind/SourceOnlyBuilder.java:345-347 | one ", PathElement.sequenceElement()" per dimension |
| `SourceBuilder.SourceOnlyBuilder.AddVarHandle` | src/jdk.incubator.jbind/share/classes/jdk/incubator/jbind/SourceOnlyBuilder.java:331-355 | the global's var handle with one sequence step per dimension; an address class is read as a long and wrapped with asAddressVarHandle |
| `SourceBuilder.SourceOnlyBuilder.EmitVarHandleExpr` | src/jdk.incubator.jbind/share/classes/jdk/incubator/jbind/SourceOnlyBuilder.java:336-354 | the var handle's initialiser |
| `SourceText.VarHandleNameInjective` | src/jdk.incubator.jbind/share/classes/jdk/incubator/jbind/SourceOnlyBuilder.java:392-394 | top-level variables get distinct var handle names |
| `SourceText.VarHandleCarrier` | src/jdk.incubator.jbind/share/classes/jdk/incubator/jbind/SourceOnlyBuilder.java:331-355 | a primitive is read with its own carrier, an address class as a long turned into addresses, as the class-file form does |
| `SourceText.PrimitiveNameShort` | src/jdk.incubator.jbind/share/classes/jdk/incubator/jbind/SourceOnlyBuilder.java:336-341 | a primitive's name is its own carrier name |
| `SourceText.AddressNameHasCarrier` | src/jdk.incubator.jbind/share/classes/jdk/incubator/jbind/SourceOnlyBuilder.java:336-341 | MemoryAddress and its implementation are read as long |
| `SourceBuilder.SourceOnlyBuilder.AddPrimitiveGlobal` | src/jdk.incubator.jbind/share/classes/jdk/incubator/jbind/SourceOnlyBuilder.java:96-114 | the layout constant, the address, the var handle, the getter and the setter of a global; fails exactly when its layout cannot be rendered |
| `SourceBuilder.SourceOnlyBuilder.EmitGlobalHandles` | src/jdk.incubator.jbind/share/classes/jdk/incubator/jbind/SourceOnlyBuilder.java:98-113 | the address, var handle, getter and setter once the layout is written |
| `SourceBuilder.SourceOnlyBuilder.EmitGlobalAccessors` | src/jdk.incubator.jbind/share/classes/jdk/incubator/jbind/SourceOnlyBuilder.java:101-113 | the static getter and setter, through the var handle at the global's address |
| `SourceBuilder.SourceOnlyBuilder.EmitGlobalGetter` | src/jdk.incubator.jbind/share/classes/jdk/incubator/jbind/SourceOnlyBuilder.java:106-109 | the getter: head, read, close |
| `SourceBuilder.SourceOnlyBuilder.EmitGlobalSetter` | src/jdk.incubator.jbind/share/classes/jdk/incubator/jbind/SourceOnlyBuilder.java:110-113 | the setter: head, write, close |
| `Arenas.CloseOne` | src/jdk.incubator.foreign/share/classes/jdk/internal/foreign/abi/ProgrammableInvoker.java:326 | closing a segment succeeds exactly when it is open, and then closes it; closing a closed one throws IllegalStateException and changes nothing |
| `Arenas.CloseAll` | src/jdk.incubator.foreign/share/classes/jdk/internal/foreign/abi/ProgrammableInvoker.java:275-279 | closing a list in order: on success every segment of the list is closed; the segments not in the list never change; a failure is IllegalStateException |
| `Arenas.Range` | src/jdk.incubator.foreign/share/classes/jdk/internal/foreign/abi/ProgrammableInvoker.java:172 | the allocation numbers from a to b, in order |
| `Arenas.CloseOpenSucceeds` | src/jdk.incubator.foreign/share/classes/jdk/internal/foreign/abi/ProgrammableInvoker.java:275-279 | closing distinct open segments succeeds and closes exactly those |
| `Arenas.CloseTwiceFails` | src/jdk.incubator.foreign/share/classes/jdk/internal/foreign/abi/ProgrammableInvoker.java:275-279 | closing the same list again throws IllegalStateException and changes nothing |
| `Arenas.Arena.constructor` | src/jdk.incubator.foreign/share/classes/jdk/internal/foreign/abi/ProgrammableInvoker.java:283 | no segment allocated yet |
| `Arenas.Arena.Allocate` | src/jdk.incubator.foreign/share/classes/jdk/internal/foreign/abi/ProgrammableInvoker.java:283-292 | allocateNative opens one new segment, numbered after the others |
| `Arenas.Arena.Close` | src/jdk.incubator.foreign/share/classes/jdk/internal/foreign/abi/ProgrammableInvoker.java:325-327 | close as CloseOne specifies |
| `Arenas.CloseBuffers` | src/jdk.incubator.foreign/share/classes/jdk/internal/foreign/abi/ProgrammableInvoker.java:275-279 | the loop closes the buffers in order and stops at the first failure, as CloseAll specifies |
| `MethodHandles.Plain` | src/jdk.incubator.foreign/share/classes/jdk/internal/foreign/abi/ProgrammableInvoker.java:76-89 | a handle with no adapters |
| `MethodHandles.Wrap` | src/jdk.incubator.foreign/share/classes/jdk/internal/foreign/abi/ProgrammableInvoker.java:183-251 | one adapter more, same origin and starting type |
| `MethodHandles.FilterArguments` | src/jdk.incubator.foreign/share/classes/jdk/internal/foreign/abi/ProgrammableInvoker.java:187-201 | filterArguments succeeds exactly when the position exists and the filter takes one parameter and returns the parameter's class; that parameter then takes the filter's class; otherwise IndexOutOfBoundsException or IllegalArgumentException |
| `MethodHandles.PermuteArguments` | src/jdk.incubator.foreign/share/classes/jdk/internal/foreign/abi/ProgrammableInvoker.java:272 | permuteArguments succeeds exactly when the return class agrees and the reorder maps each old parameter to a new one of its class; otherwise IllegalArgumentException |
| `MethodHandles.CollectArguments` | src/jdk.incubator.foreign/share/classes/jdk/internal/foreign/abi/ProgrammableInvoker.java:224-233 | collectArguments inserts a void filter's parameters at the position, or replaces the parameter of the filter's class; the position outside the list is IndexOutOfBoundsException |
| `MethodHandles.FilterReturnValue` | src/jdk.incubator.foreign/share/classes/jdk/internal/foreign/abi/ProgrammableInvoker.java:240 | filterReturnValue succeeds exactly when the filter takes the target's result (nothing after void); the result is then the filter's |
| `MethodHandles.TryFinally` | src/jdk.incubator.foreign/share/classes/jdk/internal/foreign/abi/ProgrammableInvoker.java:251 | tryFinally succeeds exactly when the cleanup returns the target's class and takes Throwable, the result unless void, then a prefix of the parameters; the type is unchanged |
| `MethodHandles.InsertArguments` | src/jdk.incubator.foreign/share/classes/jdk/internal/foreign/abi/ProgrammableInvoker.java:200 | insertArguments removes the bound parameters and fails exactly when they do not all exist |
| `MethodHandles.DropArguments` | src/jdk.incubator.foreign/share/classes/jdk/internal/foreign/abi/ProgrammableInvoker.java:248 | dropArguments inserts the ignored classes at the position, which must exist |
| `MethodHandles.Identity` | src/jdk.incubator.foreign/share/classes/jdk/internal/foreign/abi/ProgrammableInvoker.java:210 | identity exists for every class but void |
| `Bindings.Count` | src/jdk.incubator.foreign/share/classes/jdk/internal/foreign/abi/ProgrammableInvoker.java:202 | the count is at most the length and positive exactly when some step has the tag |
| `Bindings.CountAppend` | src/jdk.incubator.foreign/share/classes/jdk/internal/foreign/abi/ProgrammableInvoker.java:175-207 | counting over a concatenation adds up |
| `Bindings.Flatten` | src/jdk.incubator.foreign/share/classes/jdk/internal/foreign/abi/ProgrammableInvoker.java:175-176 | every parameter's bindings, and only those |
| `Bindings.Moves` | src/jdk.incubator.foreign/share/classes/jdk/internal/foreign/abi/ProgrammableInvoker.java:132-136 | the MOVE steps, as many as the count of MOVE, and all of them |
| `Bindings.MoveBindings` | src/jdk.incubator.foreign/share/classes/jdk/internal/foreign/abi/ProgrammableInvoker.java:149-152 | the argument MOVE steps, one per MOVE of any parameter |
| `Bindings.MoveTypes` | src/jdk.incubator.foreign/share/classes/jdk/internal/foreign/abi/ProgrammableInvoker.java:149 | the class of each MOVE step, in order |
| `Bindings.StackMoves` | src/jdk.incubator.foreign/share/classes/jdk/internal/foreign/abi/ProgrammableInvoker.java:116-119 | the count of MOVE steps on the stack, positive exactly when one is |
| `Bindings.StackArgsBytesPositive` | src/jdk.incubator.foreign/share/classes/jdk/internal/foreign/abi/ProgrammableInvoker.java:116-120 | with a non-zero slot size, stack bytes are reserved exactly when some argument is moved to the stack |
| `FastPath.DerefGetter` | src/jdk.incubator.foreign/share/classes/jdk/internal/foreign/abi/ProgrammableInvoker.java:190-196 | a dereference reader takes a segment and returns the step's class |
| `FastPath.DerefSetter` | src/jdk.incubator.foreign/share/classes/jdk/internal/foreign/abi/ProgrammableInvoker.java:218-223 | a dereference writer takes a segment and the value |
| `FastPath.CopyFilter` | src/jdk.incubator.foreign/share/classes/jdk/internal/foreign/abi/ProgrammableInvoker.java:198-201 | a copy filter takes a segment and returns one |
| `FastPath.Allocator` | src/jdk.incubator.foreign/share/classes/jdk/internal/foreign/abi/ProgrammableInvoker.java:230-233 | the allocator takes nothing and returns a segment |
| `FastPath.MergeReorder` | src/jdk.incubator.foreign/share/classes/jdk/internal/foreign/abi/ProgrammableInvoker.java:264-271 | one entry per old parameter |
| `FastPath.MergeReorderFits` | src/jdk.incubator.foreign/share/classes/jdk/internal/foreign/abi/ProgrammableInvoker.java:257-273 | the reorder array is a valid reorder onto the type without the destination |
| `FastPath.Merge` | src/jdk.incubator.foreign/share/classes/jdk/internal/foreign/abi/ProgrammableInvoker.java:257-273 | mergeArguments: missing positions throw IndexOutOfBoundsException, differing classes IllegalArgumentException; the result drops the destination and keeps the return class |
| `FastPath.ArgStep` | src/jdk.incubator.foreign/share/classes/jdk/internal/foreign/abi/ProgrammableInvoker.java:180-205 | one argument binding: ALLOC_BUFFER is an illegal tag; MOVE only advances insertPos; DUP takes one parameter away and steps back; COPY_BUFFER counts a copy |
| `FastPath.FilterAt` | src/jdk.incubator.foreign/share/classes/jdk/internal/foreign/abi/ProgrammableInvoker.java:186-203 | a filter at insertPos keeps the parameter count and the cursor |
| `FastPath.FoldParam` | src/jdk.incubator.foreign/share/classes/jdk/internal/foreign/abi/ProgrammableInvoker.java:178-206 | folding one parameter's bindings moves the cursor, copy count and parameter count by their tags; an ALLOC_BUFFER makes it fail |
| `FastPath.FoldArgs` | src/jdk.incubator.foreign/share/classes/jdk/internal/foreign/abi/ProgrammableInvoker.java:175-207 | the same over every parameter |
| `FastPath.CountsAppend` | src/jdk.incubator.foreign/share/classes/jdk/internal/foreign/abi/ProgrammableInvoker.java:175-207 | counts of every tag add up over a concatenation |
| `FastPath.RetStep` | src/jdk.incubator.foreign/share/classes/jdk/internal/foreign/abi/ProgrammableInvoker.java:213-237 | one return binding: MOVE changes nothing, BASE_ADDRESS and COPY_BUFFER are illegal tags; origin and return class are kept |
| `FastPath.FoldRet` | src/jdk.incubator.foreign/share/classes/jdk/internal/foreign/abi/ProgrammableInvoker.java:211-238 | the return filter fails when a BASE_ADDRESS or COPY_BUFFER is among the return bindings |
| `FastPath.WithReturn` | src/jdk.incubator.foreign/share/classes/jdk/internal/foreign/abi/ProgrammableInvoker.java:209-241 | a void method's handle is left alone; otherwise the result is passed through the return filter and the handle then returns the method's class |
| `FastPath.BoundFallback` | src/jdk.incubator.foreign/share/classes/jdk/internal/foreign/abi/ProgrammableInvoker.java:127-140 | the generic handle is used exactly when OLD_INVOKER is set or more than one value is returned in registers; otherwise the handle wraps the raw native call |
| `FastPath.ChainParts` | src/jdk.incubator.foreign/share/classes/jdk/internal/foreign/abi/ProgrammableInvoker.java:172-241 | the chain is the argument fold, then the return side |
| `FastPath.BoundIntrinsic` | src/jdk.incubator.foreign/share/classes/jdk/internal/foreign/abi/ProgrammableInvoker.java:142-149 | the raw native call takes the MOVE classes in order and returns the single return MOVE's class or void; the handle has one parameter less per DUP |
| `FastPath.ArgFoldCursor` | src/jdk.incubator.foreign/share/classes/jdk/internal/foreign/abi/ProgrammableInvoker.java:174-207 | the cursor ends at -1 plus MOVEs minus DUPs, and the copy count is the number of COPY_BUFFER steps |
| `FastPath.BoundRejectsIllegalTags` | src/jdk.incubator.foreign/share/classes/jdk/internal/foreign/abi/ProgrammableInvoker.java:204-236 | an illegal tag makes building fail |
| `FastPath.BoundFinallyIffCopies` | src/jdk.incubator.foreign/share/classes/jdk/internal/foreign/abi/ProgrammableInvoker.java:243-252 | a try/finally closing the buffers is installed exactly when at least one COPY_BUFFER was folded |
| `Invoker.Header` | src/jdk.incubator.foreign/share/classes/jdk/internal/foreign/abi/ProgrammableInvoker.java:294-296 | three long writes into the argument buffer, the last the stack area's address or 0 |
| `Invoker.StubPerABI` | src/jdk.incubator.foreign/share/classes/jdk/internal/foreign/abi/ProgrammableInvoker.java:109 | one adapter per ABI: a second lookup returns the same stub and changes nothing; other ABIs are untouched |
| `Invoker.StubCache.constructor` | src/jdk.incubator.foreign/share/classes/jdk/internal/foreign/abi/ProgrammableInvoker.java:69 | the map starts empty |
| `Invoker.StubCache.ComputeIfAbsent` | src/jdk.incubator.foreign/share/classes/jdk/internal/foreign/abi/ProgrammableInvoker.java:109 | computeIfAbsent as StubLookup specifies |
| `Invoker.CopyBuffers` | src/jdk.incubator.foreign/share/classes/jdk/internal/foreign/abi/ProgrammableInvoker.java:300-306 | n new open buffers, added to the list |
| `Invoker.OpenCallBuffers` | src/jdk.incubator.foreign/share/classes/jdk/internal/foreign/abi/ProgrammableInvoker.java:283-292 | the argument buffer, then a stack area exactly when stack bytes are needed; both open |
| `Invoker.Release` | src/jdk.incubator.foreign/share/classes/jdk/internal/foreign/abi/ProgrammableInvoker.java:325-327 | the argument buffer and every buffer allocated after it are closed, and nothing else changes |
| `Invoker.FlattenSnoc` | src/jdk.incubator.foreign/share/classes/jdk/internal/foreign/abi/ProgrammableInvoker.java:175-176 | flattening one more parameter appends its bindings |
| `Invoker.CopiesStep` | src/jdk.incubator.foreign/share/classes/jdk/internal/foreign/abi/ProgrammableInvoker.java:298-307 | copies of the first i+1 parameters are those of the first i plus the next |
| `Invoker.RangeAppend` | src/jdk.incubator.foreign/share/classes/jdk/internal/foreign/abi/ProgrammableInvoker.java:172 | consecutive allocation numbers join up |
| `Invoker.OpenFromTrans` | src/jdk.incubator.foreign/share/classes/jdk/internal/foreign/abi/ProgrammableInvoker.java:283-306 | segments opened later stay open |
| `Invoker.Reached` | src/jdk.incubator.foreign/share/classes/jdk/internal/foreign/abi/ProgrammableInvoker.java:298-307 | at most the number of parameters |
| `Invoker.UnboxArguments` | src/jdk.incubator.foreign/share/classes/jdk/internal/foreign/abi/ProgrammableInvoker.java:298-307 | the unboxing loop fails exactly when a failing argument exists, and has opened one buffer per copy step of the parameters it reached |
| `Invoker.UnboxedStep` | src/jdk.incubator.foreign/share/classes/jdk/internal/foreign/abi/ProgrammableInvoker.java:298-307 | opening more buffers extends what was unboxed |
| `Invoker.MergeArguments` | src/jdk.incubator.foreign/share/classes/jdk/internal/foreign/abi/ProgrammableInvoker.java:257-273 | the loop fills the reorder array as Merge specifies |
| `Invoker.ApplyArgBinding` | src/jdk.incubator.foreign/share/classes/jdk/internal/foreign/abi/ProgrammableInvoker.java:180-205 | one case of the argument switch, as ArgStep specifies |
| `Invoker.FoldBindings` | src/jdk.incubator.foreign/share/classes/jdk/internal/foreign/abi/ProgrammableInvoker.java:178-206 | the inner loop, last binding first, as FoldParam specifies |
| `Invoker.ApplyReturnBinding` | src/jdk.incubator.foreign/share/classes/jdk/internal/foreign/abi/ProgrammableInvoker.java:214-237 | one case of the return switch, as RetStep specifies |
| `Invoker.FoldReturnBindings` | src/jdk.incubator.foreign/share/classes/jdk/internal/foreign/abi/ProgrammableInvoker.java:211-238 | the return loop, last binding first, as FoldRet specifies |
| `Invoker.ProgrammableInvoker.constructor` | src/jdk.incubator.foreign/share/classes/jdk/internal/foreign/abi/ProgrammableInvoker.java:106-121 | the stub is looked up once per ABI, and the stack area is sized from the argument MOVE steps on the stack |
| `Invoker.ProgrammableInvoker.GetBoundMethodHandle` | src/jdk.incubator.foreign/share/classes/jdk/internal/foreign/abi/ProgrammableInvoker.java:127-255 | the handle built as Bound specifies |
| `Invoker.ProgrammableInvoker.MoveStores` | src/jdk.incubator.foreign/share/classes/jdk/internal/foreign/abi/ProgrammableInvoker.java:346-353 | one write per argument |
| `Invoker.ProgrammableInvoker.Invoke` | src/jdk.incubator.foreign/share/classes/jdk/internal/foreign/abi/ProgrammableInvoker.java:281-328 | a failing unbox throws; otherwise null for a void descriptor and the boxed value else; the header is written; the argument buffer, stack area and every copy are closed on every path |
| `Invoker.ProgrammableInvoker.InvokeSpec` | src/jdk.incubator.foreign/share/classes/jdk/internal/foreign/abi/ProgrammableInvoker.java:330-378 | the header then each argument at its MOVE's place; the return read back or null; the argument buffer and stack area closed on every path |
| `Invoker.NoWriteThroughNull` | src/jdk.incubator.foreign/share/classes/jdk/internal/foreign/abi/ProgrammableInvoker.java:346-351 | every argument bound for the stack finds a stack area, at its index times the slot size |
| `Invoker.CopiesAgree` | src/jdk.incubator.foreign/share/classes/jdk/internal/foreign/abi/ProgrammableInvoker.java:298-307 | the generic path opens as many copy buffers per call as the fast path counts |
| `Invoker.BoundCallAsWritten` | src/jdk.incubator.foreign/share/classes/jdk/internal/foreign/abi/ProgrammableInvoker.java:198-203 | as written, a call's copies go to the list captured when the handle was built |
| `Invoker.BoundCall` | src/jdk.incubator.foreign/share/classes/jdk/internal/foreign/abi/ProgrammableInvoker.java:282-288 | with a list per call, each call's copies are exactly the new segments |
| `Invoker.SecondCallFailsAsWritten` | src/jdk.incubator.foreign/share/classes/jdk/internal/foreign/abi/ProgrammableInvoker.java:243-252 | as written, a second call of a handle with copies throws IllegalStateException and leaves its own copies open |
| `Invoker.BoundCallReleases` | src/jdk.incubator.foreign/share/classes/jdk/internal/foreign/abi/ProgrammableInvoker.java:325-327 | with a list per call, every call succeeds and closes all it opened |
| `Invoker.CapturedBuffers.constructor` | src/jdk.incubator.foreign/share/classes/jdk/internal/foreign/abi/ProgrammableInvoker.java:172 | the captured list starts empty |
| `Invoker.CapturedBuffers.CallAsWritten` | src/jdk.incubator.foreign/share/classes/jdk/internal/foreign/abi/ProgrammableInvoker.java:198-203 | a call as written, as BoundCallAsWritten specifies |
| `Invoker.CallBound` | src/jdk.incubator.foreign/share/classes/jdk/internal/foreign/abi/ProgrammableInvoker.java:282-288 | a call with its own list, as BoundCall specifies |
| `VarargsInvoker.Box` | src/java.base/share/classes/jdk/incubator/jbind/core/VarargsInvoker.java:106-128 | every primitive class has a wrapper class |
| `VarargsInvoker.UnboxIfNeeded` | src/java.base/share/classes/jdk/incubator/jbind/core/VarargsInvoker.java:106-128 | the nine wrapper classes become their primitives, every other class stays |
| `VarargsInvoker.UnboxBox` | src/java.base/share/classes/jdk/incubator/jbind/core/VarargsInvoker.java:106-128 | unboxing undoes boxing for each primitive |
| `VarargsInvoker.UnboxIdempotent` | src/java.base/share/classes/jdk/incubator/jbind/core/VarargsInvoker.java:106-128 | unboxing twice is unboxing once |
| `VarargsInvoker.Regulate` | src/java.base/share/classes/jdk/incubator/jbind/core/VarargsInvoker.java:130-142 | accepted exactly when the unboxed class is primitive, an address or a segment class; a primitive stays, an address becomes MemoryAddress, a segment MemorySegment; otherwise IllegalArgumentException |
| `VarargsInvoker.RegulateIdempotent` | src/java.base/share/classes/jdk/incubator/jbind/core/VarargsInvoker.java:130-142 | a regulated class regulates to itself |
| `VarargsInvoker.VariadicLayout` | src/java.base/share/classes/jdk/incubator/jbind/core/VarargsInvoker.java:144-156 | char, byte, short, int and long exactly get C_LONG, float and double C_DOUBLE, addresses C_POINTER; anything else is IllegalArgumentException |
| `VarargsInvoker.RegulatedLayout` | src/java.base/share/classes/jdk/incubator/jbind/core/VarargsInvoker.java:86-88 | after regulating, a variadic argument is refused a layout exactly when it is a boolean, a void or a segment |
| `VarargsInvoker.BoxedArgument` | src/java.base/share/classes/jdk/incubator/jbind/core/VarargsInvoker.java:86-88 | a boxed numeric argument is passed as its primitive, floating ones as C_DOUBLE and the rest as C_LONG |
| `VarargsInvoker.Invoke` | src/java.base/share/classes/jdk/incubator/jbind/core/VarargsInvoker.java:68-104 | the call succeeds exactly when every variadic argument has a class and layout, fails with the first refused argument's exception, and otherwise downcalls with the declared return, the named parameters' declared classes and layouts followed by the derived ones, and the arguments flattened in order |
| `VarargsInvoker.FillNamed` | src/java.base/share/classes/jdk/incubator/jbind/core/VarargsInvoker.java:79-83 | the named positions take the declared classes and layouts |
| `VarargsInvoker.FillVariadic` | src/java.base/share/classes/jdk/incubator/jbind/core/VarargsInvoker.java:86-90 | the later positions take each variadic argument's class and layout, the named positions are untouched, and the first refused argument stops the loop |
| `VarargsInvoker.Flatten` | src/java.base/share/classes/jdk/incubator/jbind/core/VarargsInvoker.java:99-101 | the named arguments, then the variadic ones |
| `VarargsInvoker.DowncallCorrect` | src/java.base/share/classes/jdk/incubator/jbind/core/VarargsInvoker.java:93-101 | the downcall built from the filled arrays is the correct one |
| `FFIUtils.NulTerminated` | src/java.base/unix/classes/sun/nio/FFIUtils.java:60-65 | the C string is the array with a NUL added, unless it already ends in one |
| `FFIUtils.CopyToNativeBytes` | src/java.base/unix/classes/sun/nio/FFIUtils.java:60-66 | the copy is the NUL-terminated array; an empty array throws IndexOutOfBoundsException |
| `FFIUtils.FirstNul` | src/java.base/unix/classes/sun/nio/FFIUtils.java:105-106 | the position of a NUL with none before it |
| `FFIUtils.CString` | src/java.base/unix/classes/sun/nio/FFIUtils.java:101-108 | null exactly for the NULL address; otherwise the bytes before the first NUL, and reading past the segment throws when there is none |
| `FFIUtils.ToByteArray` | src/java.base/unix/classes/sun/nio/FFIUtils.java:101-108 | the counting loop reads what CString specifies |
| `FFIUtils.FirstNulUnique` | src/java.base/unix/classes/sun/nio/FFIUtils.java:105-106 | a NUL with none before it is the first |
| `FFIUtils.CStringRoundTrip` | src/java.base/unix/classes/sun/nio/FFIUtils.java:101-108 | a copied C string reads back as the original bytes, less a final NUL, when no other NUL is inside |
| `FFIUtils.EmptyStringIsEmptyRead` | src/java.base/unix/classes/sun/nio/FFIUtils.java:68-71 | isEmptyString holds exactly when toByteArray reads null or no bytes |
| `FFIUtils.CheckErrno` | src/java.base/unix/classes/sun/nio/FFIUtils.java:138-142 | throws the supplied exception exactly when errno differs from the expected value |
| `FFIUtils.ConvertReturnValue` | src/java.base/unix/classes/sun/nio/FFIUtils.java:144-164 | a positive count is returned; zero is EOF when reading and 0 otherwise; EAGAIN or EWOULDBLOCK is UNAVAILABLE, EINTR INTERRUPTED; any other errno throws IOException |
| `FFIUtils.ConvertedStatusesDistinct` | src/java.base/unix/classes/sun/nio/FFIUtils.java:144-164 | a positive result means bytes moved, and each status names one situation |
| `UnixNativeDispatcher.ThrowUnixExceptionIf` | src/java.base/macosx/classes/sun/nio/fs/UnixNativeDispatcher.java:72-76 | a UnixException carrying errno exactly when the condition holds |
| `UnixNativeDispatcher.CheckErrno` | src/java.base/macosx/classes/sun/nio/fs/UnixNativeDispatcher.java:78-83 | a UnixException carrying errno exactly when errno differs from the expected value |
| `UnixNativeDispatcher.CopyToNativeBytes` | src/java.base/macosx/classes/sun/nio/fs/UnixNativeDispatcher.java:87-93 | the same NUL-termination rule as FFIUtils; an empty array has no last byte and throws |
| `UnixNativeDispatcher.Restart` | src/java.base/macosx/classes/sun/nio/fs/UnixNativeDispatcher.java:117-126 | the calls before the last returned -1 with EINTR; the result is the first value other than -1; -1 with another errno throws UnixException carrying it |
| `UnixNativeDispatcher.Restartable` | src/java.base/macosx/classes/sun/nio/fs/UnixNativeDispatcher.java:117-126 | the do-while loop does what Restart specifies |
| `UnixNativeDispatcher.HexText` | src/java.base/macosx/classes/sun/nio/fs/UnixNativeDispatcher.java:586-597 | three characters per byte |
| `UnixNativeDispatcher.HexDump` | src/java.base/macosx/classes/sun/nio/fs/UnixNativeDispatcher.java:586-597 | the loop writes what HexText specifies |
| `UnixNativeDispatcher.Hex2RoundTrip` | src/java.base/macosx/classes/sun/nio/fs/UnixNativeDispatcher.java:589 | the two upper-case digits of a byte read back as the byte |
| `UnixNativeDispatcher.DigitRoundTrip` | src/java.base/macosx/classes/sun/nio/fs/UnixNativeDispatcher.java:589 | each hex digit reads back as its value |
| `UnixNativeDispatcher.HexTextAt` | src/java.base/macosx/classes/sun/nio/fs/UnixNativeDispatcher.java:588-595 | byte i sits at offset 3i: its two digits, then a line break after every 32nd byte, a comma after every other 8th, a space otherwise |
| `UnixNativeDispatcher.HexDumpDecodes` | src/java.base/macosx/classes/sun/nio/fs/UnixNativeDispatcher.java:586-597 | the dump loses nothing: every byte reads back from its place in the text |
| `UnixNativeDispatcher.ToTimeval` | src/java.base/macosx/classes/sun/nio/fs/UnixNativeDispatcher.java:499-502 | the split by 1_000_000 with Java's truncating division: seconds times 10^6 plus the remainder gives the time back, the remainder is below 10^6 in size and not negative for a non-negative time |
| `UnixNativeDispatcher.ToTimespec` | src/java.base/macosx/classes/sun/nio/fs/UnixNativeDispatcher.java:529-532 | the same split by 1_000_000_000 |
| `UnixNativeDispatcher.Readlink` | src/java.base/macosx/classes/sun/nio/fs/UnixNativeDispatcher.java:336-349 | -1 throws errno; a length equal to the buffer size throws ENAMETOOLONG; otherwise the target is the first len bytes of the buffer, at most PATH_MAX |
| `UnixNativeDispatcher.NotFoundAsWrittenDiffers` | src/java.base/macosx/classes/sun/nio/fs/UnixNativeDispatcher.java:776-786 | as written, EBADF and EPERM throw instead of meaning "no such group"; every errno the written test accepts is also accepted by the corrected one |
| `UnixNativeDispatcher.GetgrPass` | src/java.base/macosx/classes/sun/nio/fs/UnixNativeDispatcher.java:766-793 | one pass of the loop makes at least one native call when it retries, and never more calls than there are |
| `UnixNativeDispatcher.GetgrnamPass` | src/java.base/macosx/classes/sun/nio/fs/UnixNativeDispatcher.java:766-793 | one pass, as GetgrPass specifies |
| `UnixNativeDispatcher.Getgrnam` | src/java.base/macosx/classes/sun/nio/fs/UnixNativeDispatcher.java:761-796 | the do-while loop gives the outcome and the buffer lengths Getgr specifies, starting from sysconf's value or 1024 |
| `UnixNativeDispatcher.GetgrStep` | src/java.base/macosx/classes/sun/nio/fs/UnixNativeDispatcher.java:766-793 | each pass either ends with the whole outcome or goes on with 1024 more bytes |
| `UnixNativeDispatcher.GetgrBufferGrows` | src/java.base/macosx/classes/sun/nio/fs/UnixNativeDispatcher.java:782 | every native call gets a buffer at least as large as the first, growing by exactly 1024 per retry |
| `UnixNativeDispatcher.RetryGrows` | src/java.base/macosx/classes/sun/nio/fs/UnixNativeDispatcher.java:781-783 | a retried pass followed by larger buffers keeps the growth |
| `UnixNativeDispatcher.GetgrFound` | src/java.base/macosx/classes/sun/nio/fs/UnixNativeDispatcher.java:787-792 | an entry found on the first call yields its gid, or -1 when its name is empty |
| `UnixNativeDispatcher.GetgrRetriesOnERANGE` | src/java.base/macosx/classes/sun/nio/fs/UnixNativeDispatcher.java:762-783 | ERANGE twice, then success: three calls with buffers of 1024, 2048 and 3072 bytes when sysconf fails |
| `UnixNativeDispatcher.GetgrBadFileNotFound` | src/java.base/macosx/classes/sun/nio/fs/UnixNativeDispatcher.java:777-780 | with the corrected test, a failure with EBADF means "no such group" |
| `UnixFileAttributes.ToFileTime` | test/micro/org/openjdk/bench/jdk/incubator/foreign/nio/support/UnixFileAttributes.java:119-133 | whole seconds when nsec is 0; else sec × 10^9 + nsec in nanoseconds when neither exact operation overflows; else sec × 10^6 + nsec / 1000 in microseconds with long wrap-around |
| `UnixFileAttributes.ToFileTimeExact` | test/micro/org/openjdk/bench/jdk/incubator/foreign/nio/support/UnixFileAttributes.java:119-126 | without the fallback the time denotes exactly sec seconds plus nsec nanoseconds |
| `UnixFileAttributes.NearTimesAreExact` | test/micro/org/openjdk/bench/jdk/incubator/foreign/nio/support/UnixFileAttributes.java:123-126 | within about 292 years of the epoch, a valid time is exact |
| `UnixFileAttributes.FallbackTruncatesToMicros` | test/micro/org/openjdk/bench/jdk/incubator/foreign/nio/support/UnixFileAttributes.java:127-130 | when the fallback is taken and does not wrap, it loses less than a microsecond |
| `UnixFileAttributes.FromStatReadsBack` | test/micro/org/openjdk/bench/jdk/incubator/foreign/nio/support/UnixFileAttributes.java:59-75 | the accessors give the stat64 fields back; ctime, lastModifiedTime and lastAccessTime each convert their own timespec; creationTime is the birth time's whole seconds |
| `UnixFileAttributes.StatTimesExact` | test/micro/org/openjdk/bench/jdk/incubator/foreign/nio/support/UnixFileAttributes.java:135-145 | near the epoch the three converted times denote their timespecs exactly |

## Left out

- The HotSpot stubs are not modelled. `invokeNative`, `generateAdapter` and `JavaLangInvokeAccess.nativeMethodHandle` are foreign calls. The stub address is a parameter, and the raw native call is a handle origin.
- `BindingInterpreter`, `BufferLayout`, `CallingSequence`, `VMStorage` and `ABIDescriptor` are not part of this model. Only the data and the memory effects the invoker relies on appear here:
  - unboxing is modelled by the copy buffers it allocates;
  - boxing is modelled by its value;
  - `writeOverSized` and `read` are modelled by the writes and the read they make.
- The `DEBUG` buffer dumps and all logging are output only and are left out.
- `adapterStubs` is a `ConcurrentHashMap`. It is modelled as a sequential memo, so concurrent callers are not modelled.
- `MethodHandles.InsertArguments`: the run-time classes of the inserted values are not checked against the parameter classes.
- `asCollector`, `asType` and `bindTo` in `getFallbackHandle` are represented by the fallback handle's origin and type only.
- `NamingUtils`: `Character.isJavaIdentifierStart` and `isJavaIdentifierPart` are exact for Latin-1 only. Every character above U+00FF is taken to be a letter.
- `PatternFilter` regular expressions are not modelled. A filter is given by its answers.
- `JavaSourceFactory`: `generateHeader`, `generateLib`, `generateAll` and the final `StaticWrapperSourceFactory` call write files. `JavaSourceFactory.Generate` returns the candidate list that those calls would be given.
- `LayoutUtils.GetFieldLayout`: `findAny()` on a sequential stream is modelled as the first match.
- `ConstantHelper`: the bytecode is modelled as instruction lists; ASM's byte layout is not. Also not modelled:
  - the class header and static initialiser;
  - `jfoFromByteArray`;
  - the `asm*` conversions of constant descriptors.
- `ConstantHelper`: `emitConFloat`, `emitConDouble` and their getters are modelled by the constant they load, not by the instruction they pick, because floating-point bit patterns are not modelled.
- `JavaSourceBuilder`: the following methods are not modelled; they append fixed templates without a rule of their own:
  - `addImport`, `addFunctionalInterface`, `beginRecordType`, `beginLibraryClass`;
  - `addFunctionalFactory`, `addStructConstructor`, `addLayoutHelperMethods`, `simpleName`;
  - `emitCarrierAddr`, `emitCarrierGetter`, `emitCarrierSetter`, `emitFieldAddr`.
- `SourceOnlyBuilder`: `addRecordTypeGlobal`, `addPrimitiveField` and `addRecordTypeField` are not modelled. They combine the modelled emitters in the same way as `addPrimitiveGlobal`.
- `SourceBuilder.SourceOnlyBuilder`: the methods require that `build()` has not been called. In the source, a later call throws NullPointerException on the discarded buffer.
- `SourceText.DoubleLiteral`: a double's text is taken as given. Java's `Double.toString` formatting is not modelled.
- `VarargsInvoker`: `make` is not modelled as an operation. What it guarantees, an `Object[]` collector after the named parameters, is the `WellFormed` precondition. The downcall itself is foreign and is represented by its request.
- `FFIUtils`: these are reads and writes of native memory or foreign calls, and are not modelled:
  - `errno` and `setErrno`;
  - `ofNativeSegment`, `isNull`, `getFD`;
  - `toString`, `toByteArray(addr, len)`;
  - `getErrorMsg` and `getLastErrorMsg`, which call `strerror_r`.
- `UnixNativeDispatcher`: the wrappers that only combine `copyToNativeBytes`, `restartable` or `throwUnixExceptionIf` with one native call are not modelled. Examples are `open`, `stat`, `chown` and `opendir`. `getpwuid`, `getgrgid` and `getpwnam` are left out too. `getpwnam` repeats the `errno` test of the finding below.
- `UnixNativeDispatcher.Restart`: a retry loop that would need more native calls than the given sequence holds reports that it ran out (None) instead of looping on.
- SourceBuilder.SourceOnlyBuilder.AddFunction: builds the corrected parameter list of the second finding below. For a variadic function without named parameters it writes `(Object... x0)`, where `JavaSourceBuilder.java` as written writes `(, Object... x0)`. The as-written text is `SourceText.VarargsWithoutNamedParamsAsWritten`.
- SourceBuilder.SourceOnlyBuilder.EmitFunction: the same corrected variadic delimiter, for the same reason.
- SourceBuilder.SourceOnlyBuilder.EmitParameters: the same corrected variadic delimiter, for the same reason.
- SourceBuilder.SourceOnlyBuilder.EmitWrapperHead: the same corrected variadic delimiter, for the same reason.
- UnixNativeDispatcher.GetgrPass: uses the corrected "no such group" test of the third finding below, so a failure with EBADF or EPERM ends the lookup with no group. As written, `UnixNativeDispatcher.java:777-778` throws for those two values. `UnixNativeDispatcher.NotFoundAsWritten` is the as-written test, and `UnixNativeDispatcher.NotFoundAsWrittenDiffers` shows where it differs.
- UnixNativeDispatcher.GetgrnamPass: the same corrected test, for the same reason.
- UnixNativeDispatcher.Getgrnam: the same corrected test, for the same reason.
- SourceText.TypeToLayoutName: the C layouts are fixed to the x86-64 System V values, for example a 64-bit `long` and an 80-bit `long double` in 128 bits. In the source the C layout constants depend on the platform; on Windows, for example, `long` is 32 bits.
- `UnixFileAttributes`: the constructor that reads the fields from a raw `MemorySegment` at the `stat64` offsets is not modelled. Its effect is that of the `stat64` constructor, which is modelled.

## Findings

| source | as written | input that shows it | evidently intended | confidence | as-written member | corrected member |
|---|---|---|---|---|---|---|
| src/jdk.incubator.foreign/share/classes/jdk/internal/foreign/abi/ProgrammableInvoker.java:172 | the fast path creates `tempBuffers` once per bound handle; each call's copies are added to it, and `closeBuffers` (275-279) closes the whole list but never clears it | a function with one by-value struct parameter (one COPY_BUFFER step), called twice through the same bound handle: the second call closes the first call's buffer again | one buffer list per call, so each call closes exactly the buffers it allocated | not executed; relies on closing an already closed segment throwing IllegalStateException | `Invoker.SecondCallFailsAsWritten` | `Invoker.BoundCallReleases` |
| src/jdk.incubator.jbind/share/classes/jdk/incubator/jbind/JavaSourceBuilder.java:203-205 | the variadic parameter is always preceded by ", " | a variadic C function without named parameters, such as `void f();`, gets the parameter list `(, Object... x0)`, which does not compile | the delimiter only after a named parameter: `(Object... x0)` | not executed | `SourceText.VarargsWithoutNamedParamsAsWritten` | `SourceText.ParamListJoinsDecls` |
| src/java.base/macosx/classes/sun/nio/fs/UnixNativeDispatcher.java:777-778 | `errno == 0 \|\| errno == ENOENT \|\| errno == ESRCH && errno != EBADF && errno != EPERM`: the last two tests add nothing, so EBADF and EPERM fall through and throw | `getgrnam` of an unknown group where `getgrnam_r` fails with EBADF | EBADF and EPERM also mean "no such group", as the JDK's C implementation of `getgrnam` treats them | not executed | `UnixNativeDispatcher.NotFoundAsWrittenDiffers` | `UnixNativeDispatcher.GetgrBadFileNotFound` |
