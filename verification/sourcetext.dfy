/**
 * The Java text the source-mode header builder writes.
 *
 * Each function here is the text one emitting operation appends to the buffer,
 * given the indentation level (`align`) at which it starts; the builder's methods
 * are proved to append exactly that text. Layout rendering can fail, as the builder
 * does, on a scalar layout that is none of the C layouts of the platform.
 */
module SourceText {
  import opened Wrappers
  import opened JavaTypes
  import opened Layouts
  import opened Decimal
  import ConstantHelper
  import Clang
  import NamingUtils

  const PUB_CLS_MODS: string := "public final "
  const PUB_MODS: string := "public static final "
  const PRI_MODS: string := "private static final "
  const INDENT_UNIT: string := "    "

  // ---- indentation and line breaks ----

  /** Four spaces per level; a level of zero or less gives nothing. */
  function Indentation(align: int): string
  {
    if align <= 0 then "" else Indentation(align - 1) + INDENT_UNIT
  }

  /** `lines` newlines; none for a count of zero or less. */
  function Newlines(lines: int): string
  {
    if lines <= 0 then "" else Newlines(lines - 1) + "\n"
  }

  /** An indentation is four spaces per positive level. */
  lemma {:induction false} IndentationIsSpaces(align: int)
    ensures |Indentation(align)| == 4 * (if align > 0 then align else 0)
    ensures forall i :: 0 <= i < |Indentation(align)| ==> Indentation(align)[i] == ' '
  {
    if align > 0 {
      IndentationIsSpaces(align - 1);
    }
  }

  /** addLineBreaks(n) writes exactly n line breaks, none for n <= 0. */
  lemma {:induction false} NewlinesCount(lines: int)
    ensures |Newlines(lines)| == (if lines > 0 then lines else 0)
    ensures forall i :: 0 <= i < |Newlines(lines)| ==> Newlines(lines)[i] == '\n'
  {
    if lines > 0 {
      NewlinesCount(lines - 1);
    }
  }

  // ---- joining ----

  /** String.join(sep, parts) */
  function JoinWith(sep: string, parts: seq<string>): string
  {
    if |parts| == 0 then ""
    else if |parts| == 1 then parts[0]
    else JoinWith(sep, parts[..|parts| - 1]) + sep + parts[|parts| - 1]
  }

  /** One more part: the separator goes in front of it unless it is the first. */
  lemma JoinWithSnoc(sep: string, parts: seq<string>, i: nat)
    requires i < |parts|
    ensures JoinWith(sep, parts[..i + 1]) == JoinWith(sep, parts[..i]) + (if i == 0 then "" else sep) + parts[i]
  {
    assert parts[..i + 1][..i] == parts[..i];
  }

  /** Joining from the front: the first part, the separator, then the rest joined. */
  lemma {:induction false} JoinWithCons(sep: string, x: string, rest: seq<string>)
    requires rest != []
    ensures JoinWith(sep, [x] + rest) == x + sep + JoinWith(sep, rest)
    decreases |rest|
  {
    var all := [x] + rest;
    if |rest| == 1 {
      assert all[..1] == [x];
    } else {
      var init := rest[..|rest| - 1];
      assert all[..|all| - 1] == [x] + init;
      JoinWithCons(sep, x, init);
    }
  }

  // ---- the file header ----

  const HEADER: string := "// Generated by jbind\n\n"
  const IMPORTS: string := "import " + "jdk.incubator.jbind.core.*;\nimport java.lang.invoke.MethodHandle;\nimport java.lang.invoke.VarHandle;\nimport jdk.incubator.foreign.*;\nimport jdk.incubator.foreign.MemoryLayout.PathElement;\nimport static jdk.incubator.foreign.CSupport.*;\n\n"
  const PACKAGE_KEYWORD: string := "package "

  /** The buffer after addPackagePrefix(pkgName): the header comment, a package statement unless the package is unnamed, the imports. */
  function AppendPackagePrefix(pre: string, pkgName: string): string
  {
    (if pkgName == "" then pre + HEADER else pre + HEADER + PACKAGE_KEYWORD + pkgName + ";\n\n") + IMPORTS
  }

  /**
   * The file declares a package exactly when the package is named, and then it is
   * the named one; an unnamed package goes straight on to the imports. What the
   * buffer held stays in front.
   */
  lemma PackageStatement(pre: string, pkgName: string)
    ensures var t := AppendPackagePrefix(pre, pkgName);
            var h := |pre| + |HEADER|;
            |t| >= h + |PACKAGE_KEYWORD| && t[..|pre|] == pre && t[|pre|..h] == HEADER
            && (t[h..h + |PACKAGE_KEYWORD|] == PACKAGE_KEYWORD <==> pkgName != "")
            && (pkgName != "" ==> t[h + |PACKAGE_KEYWORD|..h + |PACKAGE_KEYWORD| + |pkgName|] == pkgName)
            && (pkgName == "" ==> t == pre + HEADER + IMPORTS)
  {
    ImportsStart();
    PrefixShape(pre, pkgName, IMPORTS);
  }

  /** The imports start with "import ", which differs from "package " at its second letter. */
  lemma ImportsStart()
    ensures |IMPORTS| >= |PACKAGE_KEYWORD| && IMPORTS[1] != PACKAGE_KEYWORD[1]
  {
    assert IMPORTS[1] == "import "[1] == 'm';
  }

  /** The layout of the package prefix, for any imports text that does not read as a package statement. */
  lemma PrefixShape(pre: string, pkgName: string, imports: string)
    requires |imports| >= |PACKAGE_KEYWORD| && imports[1] != PACKAGE_KEYWORD[1]
    ensures var t := (if pkgName == "" then pre + HEADER else pre + HEADER + PACKAGE_KEYWORD + pkgName + ";\n\n") + imports;
            var h := |pre| + |HEADER|;
            |t| >= h + |PACKAGE_KEYWORD| && t[..|pre|] == pre && t[|pre|..h] == HEADER
            && (t[h..h + |PACKAGE_KEYWORD|] == PACKAGE_KEYWORD <==> pkgName != "")
            && (pkgName != "" ==> t[h + |PACKAGE_KEYWORD|..h + |PACKAGE_KEYWORD| + |pkgName|] == pkgName)
  {
    var t := (if pkgName == "" then pre + HEADER else pre + HEADER + PACKAGE_KEYWORD + pkgName + ";\n\n") + imports;
    var h := |pre| + |HEADER|;
    var k := |PACKAGE_KEYWORD|;
    var tail := if pkgName == "" then imports else PACKAGE_KEYWORD + pkgName + (";\n\n" + imports);
    if pkgName != "" {
      Regroup2(pre + HEADER + PACKAGE_KEYWORD + pkgName, ";\n\n", imports);
    }
    assert t == pre + HEADER + tail;
    ConcatSlices(pre, HEADER, tail);
    assert t[h..h + k] == tail[..k];
    if pkgName == "" {
      assert tail[..k][1] == imports[1];
    } else {
      ConcatSlices(PACKAGE_KEYWORD, pkgName, ";\n\n" + imports);
      assert t[h + k..h + k + |pkgName|] == tail[k..k + |pkgName|];
    }
  }

  /** The pieces of a concatenation are found at their offsets. */
  lemma ConcatSlices(a: string, b: string, c: string)
    ensures (a + b + c)[..|a|] == a && (a + b + c)[|a|..|a| + |b|] == b && (a + b + c)[|a| + |b|..] == c
  {
  }

  // ---- classes ----

  /** The buffer after classBegin(name), which opens a block. */
  function AppendClassBegin(pre: string, name: string, align: int): string
  {
    pre + Indentation(align) + PUB_CLS_MODS + "class " + name + " {\n"
  }

  /** The buffer after classBegin(isStatic, name, superClass, superInterfaces); an empty superclass is none. */
  function AppendClassBeginWith(pre: string, isStatic: bool, name: string, superClass: string, superInterfaces: seq<string>, align: int): string
  {
    pre + Indentation(align) + (if isStatic then PUB_MODS else PUB_CLS_MODS) + "class " + name
    + (if superClass != "" then " extends " + superClass else "")
    + (if superInterfaces != [] then " implements " + JoinWith(", ", superInterfaces) else "")
    + " {\n"
  }

  /** The buffer after closeBracket() inside a block at level `align`: the bracket goes one level out. */
  function AppendCloseBracket(pre: string, align: int): string
  {
    pre + Indentation(align - 1) + "}\n"
  }

  // ---- accessor methods ----

  /** `idx<i>` */
  function IdxName(i: int): string
  {
    "idx" + IntToString(i)
  }

  /** `long idx<i>` */
  function IdxDecl(i: int): string
  {
    "long " + IdxName(i)
  }

  /** The index parameters of a getter: `long idx0`, `long idx1`, ... */
  function IdxDecls(dimensions: int): (r: seq<string>)
    ensures |r| == (if dimensions > 0 then dimensions else 0)
  {
    seq(if dimensions > 0 then dimensions else 0, i => IdxDecl(i))
  }

  /** The setter's index parameters, each followed by ", " (the value parameter comes after them). */
  function SetterIdx(dimensions: int): string
  {
    if dimensions <= 0 then "" else SetterIdx(dimensions - 1) + IdxDecl(dimensions - 1) + ", "
  }

  /** The indices an accessor passes on: `, idx0, idx1, ...` */
  function IdxArgs(dimensions: int): string
  {
    if dimensions <= 0 then "" else IdxArgs(dimensions - 1) + ", " + IdxName(dimensions - 1)
  }

  /** The buffer after beginGetter(javaName, typeName, dimensions, isGlobal), which opens a block. */
  function AppendGetterHead(pre: string, javaName: string, typeName: string, dimensions: int, isGlobal: bool, align: int): string
  {
    pre + Indentation(align) + (if isGlobal then PUB_MODS else PUB_CLS_MODS) + typeName + " " + javaName + "$get("
    + JoinWith(", ", IdxDecls(dimensions)) + ") {\n"
  }

  /** The buffer after beginSetter(javaName, typeName, dimensions, isGlobal), which opens a block. */
  function AppendSetterHead(pre: string, javaName: string, typeName: string, dimensions: int, isGlobal: bool, align: int): string
  {
    pre + Indentation(align) + (if isGlobal then PUB_MODS else PUB_CLS_MODS) + "void " + javaName + "$set("
    + SetterIdx(dimensions) + typeName + " value) {\n"
  }

  /** The buffer after emitVHGetter(typeName, vhStmt, addrStmt, dimensions). */
  function AppendVHGetter(pre: string, typeName: string, vhStmt: string, addrStmt: string, dimensions: int, align: int): string
  {
    pre + Indentation(align) + "return (" + typeName + ") " + vhStmt + ".get(" + addrStmt + IdxArgs(dimensions) + ");\n"
  }

  /** The buffer after emitVHSetter(vhStmt, addrStmt, dimensions). */
  function AppendVHSetter(pre: string, vhStmt: string, addrStmt: string, dimensions: int, align: int): string
  {
    pre + Indentation(align) + vhStmt + ".set(" + addrStmt + IdxArgs(dimensions) + ", value);\n"
  }

  /** The setter takes the getter's index parameters, in the same order, and then the value. */
  lemma {:induction false} SetterExtendsGetter(dimensions: int)
    ensures SetterIdx(dimensions) == if dimensions <= 0 then "" else JoinWith(", ", IdxDecls(dimensions)) + ", "
  {
    if dimensions > 1 {
      SetterExtendsGetter(dimensions - 1);
      var ds := IdxDecls(dimensions);
      assert ds[..dimensions - 1] == IdxDecls(dimensions - 1);
      assert ds[..dimensions] == ds;
      JoinWithSnoc(", ", ds, dimensions - 1);
    } else if dimensions == 1 {
      assert IdxDecls(1) == [IdxDecl(0)];
    }
  }

  /** Getter and setter bodies pass the declared indices, all of them and in order. */
  lemma {:induction false} AccessorsPassDeclaredIndices(dimensions: int)
    ensures IdxArgs(dimensions) == if dimensions <= 0 then "" else ", " + JoinWith(", ", seq(dimensions, i => IdxName(i)))
  {
    if dimensions > 1 {
      AccessorsPassDeclaredIndices(dimensions - 1);
      var ns := seq(dimensions, i => IdxName(i));
      var init := seq(dimensions - 1, i => IdxName(i));
      assert ns[..dimensions - 1] == init;
      assert JoinWith(", ", ns) == JoinWith(", ", init) + ", " + IdxName(dimensions - 1);
      Regroup3(", ", JoinWith(", ", init), ", ", IdxName(dimensions - 1));
    } else if dimensions == 1 {
      assert seq(1, i => IdxName(i)) == [IdxName(0)];
    }
  }

  /** Distinct positions give distinct index names. */
  lemma IdxNamesDistinct(i: int, j: int)
    requires i != j
    ensures IdxName(i) != IdxName(j)
  {
    if IdxName(i) == IdxName(j) {
      assert IdxName(i)[3..] == IntToString(i);
      assert IdxName(j)[3..] == IntToString(j);
      IntToStringInjective(i, j);
    }
  }

  // ---- layouts ----

  /** The x86-64 System V C layouts that typeToLayoutName compares against, in its order. */
  const C_BOOL: MemoryLayout := ValueLayout(8, false, 8, "INTEGER", None)
  const C_CHAR: MemoryLayout := ValueLayout(8, false, 8, "INTEGER", None)
  const C_SHORT: MemoryLayout := ValueLayout(16, false, 16, "INTEGER", None)
  const C_INT: MemoryLayout := ValueLayout(32, false, 32, "INTEGER", None)
  const C_LONGLONG: MemoryLayout := ValueLayout(64, false, 64, "INTEGER", None)
  const C_FLOAT: MemoryLayout := ValueLayout(32, false, 32, "SSE", None)
  const C_LONGDOUBLE: MemoryLayout := ValueLayout(128, false, 128, "X87", None)

  function CLayouts(): seq<(string, MemoryLayout)>
  {
    [("C_BOOL", C_BOOL), ("C_CHAR", C_CHAR), ("C_SHORT", C_SHORT), ("C_INT", C_INT),
     ("C_LONG", C_LONG), ("C_LONGLONG", C_LONGLONG), ("C_FLOAT", C_FLOAT),
     ("C_DOUBLE", C_DOUBLE), ("C_LONGDOUBLE", C_LONGDOUBLE), ("C_POINTER", C_POINTER)]
  }

  /** matchLayout(a, b): same size, byte order, alignment and ABI class; names do not matter. */
  predicate MatchLayout(a: MemoryLayout, b: MemoryLayout)
    requires a.ValueLayout? && b.ValueLayout?
  {
    a.bitSize == b.bitSize && a.bigEndian == b.bigEndian && a.bitAlignment == b.bitAlignment && a.abiClass == b.abiClass
  }

  /** typeToLayoutName(vl): the name of the first C layout, in the order above, that the layout matches. */
  function TypeToLayoutName(vl: MemoryLayout): (r: Result<string>)
    requires vl.ValueLayout?
    ensures r.Err? ==> r.error == RuntimeException
  {
    if MatchLayout(vl, C_BOOL) then Ok("C_BOOL")
    else if MatchLayout(vl, C_CHAR) then Ok("C_CHAR")
    else if MatchLayout(vl, C_SHORT) then Ok("C_SHORT")
    else if MatchLayout(vl, C_INT) then Ok("C_INT")
    else if MatchLayout(vl, C_LONG) then Ok("C_LONG")
    else if MatchLayout(vl, C_LONGLONG) then Ok("C_LONGLONG")
    else if MatchLayout(vl, C_FLOAT) then Ok("C_FLOAT")
    else if MatchLayout(vl, C_DOUBLE) then Ok("C_DOUBLE")
    else if MatchLayout(vl, C_LONGDOUBLE) then Ok("C_LONGDOUBLE")
    else if MatchLayout(vl, C_POINTER) then Ok("C_POINTER")
    else Err(RuntimeException)
  }

  /** The first C layout from position `from` on that the layout matches. */
  function FirstMatch(vl: MemoryLayout, from: nat): (r: Option<nat>)
    requires vl.ValueLayout?
    requires from <= |CLayouts()|
    ensures r.Some? ==> from <= r.value < |CLayouts()| && MatchLayout(vl, CLayouts()[r.value].1)
    ensures forall k :: from <= k < (if r.Some? then r.value else |CLayouts()|) ==> !MatchLayout(vl, CLayouts()[k].1)
    decreases |CLayouts()| - from
  {
    if from == |CLayouts()| then None
    else if MatchLayout(vl, CLayouts()[from].1) then Some(from)
    else FirstMatch(vl, from + 1)
  }

  /** A scalar layout has a C name exactly when it matches one of the C layouts. */
  predicate HasCName(vl: MemoryLayout)
    requires vl.ValueLayout?
  {
    exists k :: 0 <= k < |CLayouts()| && MatchLayout(vl, CLayouts()[k].1)
  }

  /**
   * typeToLayoutName gives the name of the first C layout in the table that the
   * scalar matches, and fails exactly when it matches none.
   */
  lemma TypeToLayoutNameSound(vl: MemoryLayout)
    requires vl.ValueLayout?
    ensures TypeToLayoutName(vl) == match FirstMatch(vl, 0)
                                    case Some(k) => Ok(CLayouts()[k].0)
                                    case None => Err(RuntimeException)
    ensures TypeToLayoutName(vl).Ok? <==> HasCName(vl)
  {
    var cs := CLayouts();
    assert FirstMatch(vl, 10) == None;
    assert FirstMatch(vl, 9) == if MatchLayout(vl, cs[9].1) then Some(9) else None;
    assert FirstMatch(vl, 8) == if MatchLayout(vl, cs[8].1) then Some(8) else FirstMatch(vl, 9);
    assert FirstMatch(vl, 7) == if MatchLayout(vl, cs[7].1) then Some(7) else FirstMatch(vl, 8);
    assert FirstMatch(vl, 6) == if MatchLayout(vl, cs[6].1) then Some(6) else FirstMatch(vl, 7);
    assert FirstMatch(vl, 5) == if MatchLayout(vl, cs[5].1) then Some(5) else FirstMatch(vl, 6);
    assert FirstMatch(vl, 4) == if MatchLayout(vl, cs[4].1) then Some(4) else FirstMatch(vl, 5);
    assert FirstMatch(vl, 3) == if MatchLayout(vl, cs[3].1) then Some(3) else FirstMatch(vl, 4);
    assert FirstMatch(vl, 2) == if MatchLayout(vl, cs[2].1) then Some(2) else FirstMatch(vl, 3);
    assert FirstMatch(vl, 1) == if MatchLayout(vl, cs[1].1) then Some(1) else FirstMatch(vl, 2);
    assert FirstMatch(vl, 0) == if MatchLayout(vl, cs[0].1) then Some(0) else FirstMatch(vl, 1);
    if FirstMatch(vl, 0).Some? {
      assert MatchLayout(vl, cs[FirstMatch(vl, 0).value].1);
    }
  }

  /** Every C layout is rendered by a name, and the 32- and 64-bit integers and the pointer by their own. */
  lemma CLayoutsHaveNames()
    ensures TypeToLayoutName(C_INT) == Ok("C_INT")
    ensures TypeToLayoutName(C_LONG) == Ok("C_LONG")
    ensures TypeToLayoutName(C_POINTER) == Ok("C_POINTER")
    ensures TypeToLayoutName(C_DOUBLE) == Ok("C_DOUBLE")
    ensures TypeToLayoutName(C_LONGLONG) == Ok("C_LONG")
    ensures TypeToLayoutName(C_CHAR) == Ok("C_BOOL")
  {
  }

  /** `.withName("n")` for a named layout. */
  function NameSuffix(name: Option<string>): string
  {
    if name.Some? then ".withName(\"" + name.value + "\")" else ""
  }

  function CountPrefix(count: Option<nat>): string
  {
    if count.Some? then NatToString(count.value) + ", " else ""
  }

  function SequenceOpen(count: Option<nat>): string
  {
    "MemoryLayout.ofSequence(" + CountPrefix(count)
  }

  /** What goes before the member at position `k`: a comma ending the previous line, then the indentation. */
  function MemberSep(k: nat, align: int): string
  {
    (if k == 0 then "" else ",\n") + Indentation(align)
  }

  function SequenceClose(name: Option<string>): string
  {
    ")" + NameSuffix(name)
  }

  function GroupClose(align: int, name: Option<string>): string
  {
    "\n" + Indentation(align) + ")" + NameSuffix(name)
  }

  function PaddingText(bits: nat, name: Option<string>): string
  {
    "MemoryLayout.ofPaddingBits(" + NatToString(bits) + ")" + NameSuffix(name)
  }

  function GroupOpen(isStruct: bool): string
  {
    if isStruct then "MemoryLayout.ofStruct(\n" else "MemoryLayout.ofUnion(\n"
  }

  /** Every scalar inside the layout has a C name: the layout can be rendered. */
  predicate Renderable(l: MemoryLayout)
    decreases l, 1
  {
    match l
    case ValueLayout(_, _, _, _, _) => HasCName(l)
    case SequenceLayout(_, e, _) => Renderable(e)
    case GroupLayout(_, ms, _, c) => c || AllRenderable(ms)
    case PaddingLayout(_, _) => true
  }

  predicate AllRenderable(ms: seq<MemoryLayout>)
    decreases ms, 0
  {
    forall i :: 0 <= i < |ms| ==> Renderable(ms[i])
  }

  /**
   * The buffer after addLayout(l) appends the rendering of `l` to `pre`, at
   * indentation `align` (group members go one level deeper).
   */
  function AppendLayout(pre: string, l: MemoryLayout, align: int): Result<string>
    decreases l, 1
  {
    match l
    case ValueLayout(_, _, _, _, n) =>
      var t :- TypeToLayoutName(l);
      Ok(pre + t + NameSuffix(n))
    case SequenceLayout(c, e, n) =>
      var t :- AppendLayout(pre + SequenceOpen(c), e, align);
      Ok(t + SequenceClose(n))
    case GroupLayout(s, ms, n, c) =>
      if c then Ok(pre + "C_COMPLEX_LONGDOUBLE" + NameSuffix(n))
      else
        var t :- AppendMembers(pre + GroupOpen(s), ms, align + 1);
        Ok(t + GroupClose(align, n))
    case PaddingLayout(b, n) =>
      Ok(pre + PaddingText(b, n))
  }

  /** The members' renderings, each on its own line at `align`, separated by commas. */
  function AppendMembers(pre: string, ms: seq<MemoryLayout>, align: int): Result<string>
    decreases ms, 0
  {
    if ms == [] then Ok(pre)
    else
      var init :- AppendMembers(pre, ms[..|ms| - 1], align);
      AppendLayout(init + MemberSep(|ms| - 1, align), ms[|ms| - 1], align)
  }

  /** The rendering of a layout on its own. */
  function LayoutText(l: MemoryLayout, align: int): Result<string>
  {
    AppendLayout("", l, align)
  }

  /** Rendering succeeds exactly when every scalar inside the layout has a C name. */
  lemma {:induction false} AppendLayoutOk(pre: string, l: MemoryLayout, align: int)
    ensures AppendLayout(pre, l, align).Ok? <==> Renderable(l)
    ensures AppendLayout(pre, l, align).Err? ==> AppendLayout(pre, l, align).error == RuntimeException
    decreases l, 1
  {
    match l
    case ValueLayout(_, _, _, _, n) =>
      TypeToLayoutNameSound(l);
    case SequenceLayout(c, e, n) =>
      AppendLayoutOk(pre + SequenceOpen(c), e, align);
    case GroupLayout(s, ms, n, c) =>
      if !c {
        AppendMembersOk(pre + GroupOpen(s), ms, align + 1);
      }
    case PaddingLayout(b, n) =>
  }

  lemma {:induction false} AppendMembersOk(pre: string, ms: seq<MemoryLayout>, align: int)
    ensures AppendMembers(pre, ms, align).Ok? <==> AllRenderable(ms)
    ensures AppendMembers(pre, ms, align).Err? ==> AppendMembers(pre, ms, align).error == RuntimeException
    decreases ms, 0
  {
    if ms != [] {
      var init, last := ms[..|ms| - 1], ms[|ms| - 1];
      AppendMembersOk(pre, init, align);
      assert AllRenderable(ms) <==> AllRenderable(init) && Renderable(last) by {
        assert forall i :: 0 <= i < |init| ==> init[i] == ms[i];
      }
      if AllRenderable(init) {
        AppendLayoutOk(AppendMembers(pre, init, align).value + MemberSep(|ms| - 1, align), last, align);
      }
    }
  }

  lemma ShiftPrefix(pre: string, x: string, t: string, tail: string)
    ensures pre + x + t + tail == pre + ("" + x + t + tail)
  {
  }

  /** Rendering only appends: what the buffer held stays in front of the layout's text. */
  lemma {:induction false} AppendLayoutPrefix(pre: string, l: MemoryLayout, align: int)
    requires Renderable(l)
    ensures AppendLayout(pre, l, align).Ok? && LayoutText(l, align).Ok?
    ensures AppendLayout(pre, l, align).value == pre + LayoutText(l, align).value
    decreases l, 1
  {
    AppendLayoutOk(pre, l, align);
    AppendLayoutOk("", l, align);
    match l
    case ValueLayout(_, _, _, _, n) =>
      ShiftPrefix(pre, TypeToLayoutName(l).value, NameSuffix(n), "");
      assert pre + TypeToLayoutName(l).value + NameSuffix(n) + "" == pre + TypeToLayoutName(l).value + NameSuffix(n);
      assert "" + TypeToLayoutName(l).value + NameSuffix(n) + "" == "" + TypeToLayoutName(l).value + NameSuffix(n);
    case SequenceLayout(c, e, n) =>
      AppendLayoutPrefix(pre + SequenceOpen(c), e, align);
      AppendLayoutPrefix("" + SequenceOpen(c), e, align);
      ShiftPrefix(pre, SequenceOpen(c), LayoutText(e, align).value, SequenceClose(n));
    case GroupLayout(s, ms, n, c) =>
      if c {
        Regroup2(pre, "C_COMPLEX_LONGDOUBLE", NameSuffix(n));
        assert "" + "C_COMPLEX_LONGDOUBLE" + NameSuffix(n) == "C_COMPLEX_LONGDOUBLE" + NameSuffix(n);
      } else {
        AppendMembersPrefix(pre + GroupOpen(s), ms, align + 1);
        AppendMembersPrefix("" + GroupOpen(s), ms, align + 1);
        ShiftPrefix(pre, GroupOpen(s), AppendMembers("", ms, align + 1).value, GroupClose(align, n));
      }
    case PaddingLayout(b, n) =>
      assert "" + PaddingText(b, n) == PaddingText(b, n);
  }

  /**
   * The C_COMPLEX_LONGDOUBLE object is written by its name; a group equal to it in every
   * other respect is written out as ofStruct or ofUnion.
   */
  lemma ComplexLongDoubleByIdentity(l: MemoryLayout, align: int)
    requires l.GroupLayout? && l.complexLongDouble && AllRenderable(l.members)
    ensures LayoutText(l, align) == Ok("C_COMPLEX_LONGDOUBLE" + NameSuffix(l.name))
    ensures var copy := l.(complexLongDouble := false);
            LayoutText(copy, align).Ok? && GroupOpen(l.isStruct) <= LayoutText(copy, align).value
  {
    assert "" + "C_COMPLEX_LONGDOUBLE" + NameSuffix(l.name) == "C_COMPLEX_LONGDOUBLE" + NameSuffix(l.name);
    GroupWrittenOut(l.(complexLongDouble := false), align);
  }

  /** A group that is not the C_COMPLEX_LONGDOUBLE object is written out, starting with ofStruct or ofUnion. */
  lemma GroupWrittenOut(l: MemoryLayout, align: int)
    requires l.GroupLayout? && !l.complexLongDouble && AllRenderable(l.members)
    ensures LayoutText(l, align).Ok? && GroupOpen(l.isStruct) <= LayoutText(l, align).value
  {
    var GroupLayout(s, ms, n, _) := l;
    AppendMembersPrefix("" + GroupOpen(s), ms, align + 1);
    var t := AppendMembers("" + GroupOpen(s), ms, align + 1).value;
    assert LayoutText(l, align) == Ok(t + GroupClose(align, n));
    PrefixOfConcat(GroupOpen(s), "" + GroupOpen(s), AppendMembers("", ms, align + 1).value);
    PrefixOfConcat(GroupOpen(s), t, GroupClose(align, n));
  }

  lemma PrefixOfConcat(p: string, a: string, b: string)
    requires p <= a
    ensures p <= a + b
  {
    assert (a + b)[..|a|] == a;
  }

  // Regrouping concatenations, for steps where the solver would otherwise compare strings element by element.

  lemma Regroup2(a: string, b: string, c: string)
    ensures a + (b + c) == a + b + c
  {
  }

  lemma Regroup3(a: string, b: string, c: string, d: string)
    ensures a + (b + c + d) == a + b + c + d
  {
  }

  lemma RegroupPair(a: string, b: string, c: string, d: string)
    ensures a + (b + c + d) == a + b + (c + d)
  {
  }

  lemma Regroup4(a: string, b: string, c: string, d: string, e: string)
    ensures a + (b + c + d + e) == a + b + c + d + e
  {
  }

  lemma {:induction false} AppendMembersPrefix(pre: string, ms: seq<MemoryLayout>, align: int)
    requires AllRenderable(ms)
    ensures AppendMembers(pre, ms, align).Ok? && AppendMembers("", ms, align).Ok?
    ensures AppendMembers(pre, ms, align).value == pre + AppendMembers("", ms, align).value
    decreases ms, 0
  {
    AppendMembersOk(pre, ms, align);
    AppendMembersOk("", ms, align);
    if ms == [] {
      assert pre == pre + "";
    } else {
      var init, last := ms[..|ms| - 1], ms[|ms| - 1];
      assert AllRenderable(init) by {
        assert forall i :: 0 <= i < |init| ==> init[i] == ms[i];
      }
      AppendMembersPrefix(pre, init, align);
      var sep := MemberSep(|ms| - 1, align);
      var a := AppendMembers(pre, init, align).value;
      var b := AppendMembers("", init, align).value;
      AppendLayoutPrefix(a + sep, last, align);
      AppendLayoutPrefix(b + sep, last, align);
      Regroup3(pre, b, sep, LayoutText(last, align).value);
    }
  }

  /** Rendering one more member: its separator and indentation, then the member itself. */
  lemma MembersStep(pre: string, ms: seq<MemoryLayout>, i: nat, align: int, init: string)
    requires i < |ms| && AppendMembers(pre, ms[..i], align) == Ok(init)
    ensures AppendMembers(pre, ms[..i + 1], align) == AppendLayout(init + MemberSep(i, align), ms[i], align)
  {
    assert ms[..i + 1][..i] == ms[..i] && ms[..i + 1][i] == ms[i];
  }

  /** Once a prefix of the members fails to render, the whole member list fails the same way. */
  lemma {:induction false} MembersErrPersists(pre: string, ms: seq<MemoryLayout>, k: nat, align: int)
    requires k <= |ms| && AppendMembers(pre, ms[..k], align).Err?
    ensures AppendMembers(pre, ms, align) == AppendMembers(pre, ms[..k], align)
    decreases |ms| - k
  {
    if k == |ms| {
      assert ms[..k] == ms;
    } else {
      assert ms[..k + 1][..k] == ms[..k];
      MembersErrPersists(pre, ms, k + 1, align);
    }
  }

  // ---- function descriptors ----

  /** The buffer after addFunction(fd): `FunctionDescriptor.of(ret, args...)` or `ofVoid(args...)`, arguments one per line. */
  function AppendFunctionDescriptor(pre: string, fd: FunctionDescriptor, align: int): Result<string>
  {
    var noArgs := fd.argumentLayouts == [];
    var head :-
      if fd.returnLayout.Some? then
        var r :- AppendLayout(pre + "FunctionDescriptor.of(", fd.returnLayout.value, align);
        Ok(r + (if noArgs then "" else ","))
      else Ok(pre + "FunctionDescriptor.ofVoid(");
    var args :- if noArgs then Ok(head) else AppendArgumentLines(head, fd.argumentLayouts, align);
    Ok(args + ")")
  }

  /** The argument layouts of a descriptor, one per line one level in, then the indentation of the closing parenthesis. */
  function AppendArgumentLines(pre: string, args: seq<MemoryLayout>, align: int): Result<string>
  {
    var ms :- AppendMembers(pre + "\n", args, align + 1);
    Ok(ms + "\n" + Indentation(align))
  }

  /** A function descriptor can be rendered exactly when its return layout (if any) and all its argument layouts can. */
  lemma FunctionDescriptorRenderable(pre: string, fd: FunctionDescriptor, align: int)
    ensures AppendFunctionDescriptor(pre, fd, align).Ok? <==>
              (fd.returnLayout.Some? ==> Renderable(fd.returnLayout.value)) && AllRenderable(fd.argumentLayouts)
    ensures AppendFunctionDescriptor(pre, fd, align).Err? ==> AppendFunctionDescriptor(pre, fd, align).error == RuntimeException
  {
    var noArgs := fd.argumentLayouts == [];
    if fd.returnLayout.Some? {
      AppendLayoutOk(pre + "FunctionDescriptor.of(", fd.returnLayout.value, align);
    }
    if fd.returnLayout.Some? && !Renderable(fd.returnLayout.value) {
    } else if !noArgs {
      var head :=
        if fd.returnLayout.Some? then
          AppendLayout(pre + "FunctionDescriptor.of(", fd.returnLayout.value, align).value + ","
        else pre + "FunctionDescriptor.ofVoid(";
      AppendMembersOk(head + "\n", fd.argumentLayouts, align + 1);
    }
  }

  // ---- method handles ----

  function BoolText(b: bool): string
  {
    if b then "true" else "false"
  }

  /** Class.descriptorString() for the classes a method type of a header can hold. */
  function TypeDescriptor(c: JClass): string
  {
    match c
    case Void => "V"
    case Boolean => "Z"
    case Byte => "B"
    case Char => "C"
    case Short => "S"
    case Int => "I"
    case Long => "J"
    case Float => "F"
    case Double => "D"
    case ObjectArray => ConstantHelper.ReplaceChar(Name(c), '.', '/')
    case _ => ConstantHelper.ClassDescriptor(Name(c))
  }

  function ParamDescriptors(ps: seq<JClass>): string
  {
    if ps == [] then "" else ParamDescriptors(ps[..|ps| - 1]) + TypeDescriptor(ps[|ps| - 1])
  }

  /** MethodType.toMethodDescriptorString() */
  function MethodDescriptor(mt: MethodType): string
  {
    "(" + ParamDescriptors(mt.params) + ")" + TypeDescriptor(mt.ret)
  }

  /** The static field describeMethodHandle declares for a function, and the name it returns. */
  function MethodHandleVar(javaName: string): string
  {
    "mh_" + javaName
  }

  /** The text describeMethodHandle writes before the function descriptor, starting at `align`. */
  function MethodHandleHead(pre: string, javaName: string, nativeName: string, mt: MethodType, align: int): string
  {
    var mh := MethodHandleVar(javaName);
    MethodHandleLookup(MethodHandleDecl(pre, mh, align), mh, nativeName, mt, align)
  }

  /** The method handle field and the head of its getter. */
  function MethodHandleDecl(pre: string, mh: string, align: int): string
  {
    pre
    + Indentation(align) + "public static MethodHandle " + mh + ";\n"
    + Indentation(align) + PUB_MODS + "MethodHandle get" + mh + "() {\n"
  }

  /** On first use the getter looks the symbol up with the descriptor that follows. */
  function MethodHandleLookup(pre: string, mh: string, nativeName: string, mt: MethodType, align: int): string
  {
    var call := pre
      + Indentation(align + 1) + "if (" + mh + " == null) {\n"
      + Indentation(align + 2) + mh + " = RuntimeHelper.downcallHandle(\n";
    DowncallArgs(call, nativeName, mt, align + 3)
  }

  /** The leading arguments of the downcall: the libraries, the symbol's name, the method type's descriptor. */
  function DowncallArgs(pre: string, nativeName: string, mt: MethodType, align: int): string
  {
    pre
    + Indentation(align) + "LIBRARIES, \"" + nativeName + "\"" + ",\n"
    + Indentation(align) + "\"" + MethodDescriptor(mt) + "\",\n"
    + Indentation(align)
  }

  /** The text describeMethodHandle writes after the function descriptor. */
  function MethodHandleTail(pre: string, javaName: string, varargs: bool, align: int): string
  {
    var mh := MethodHandleVar(javaName);
    pre
    + ", " + BoolText(varargs) + "\n"
    + Indentation(align + 2) + ");\n"
    + Indentation(align + 1) + "}\n"
    + Indentation(align + 1) + "return " + mh + ";\n"
    + Indentation(align) + "}\n"
  }

  /** The buffer after describeMethodHandle: a lazily initialised static field and its getter. */
  function AppendMethodHandle(pre: string, javaName: string, nativeName: string, mt: MethodType,
                              fd: FunctionDescriptor, varargs: bool, align: int): Result<string>
  {
    var d :- AppendFunctionDescriptor(MethodHandleHead(pre, javaName, nativeName, mt, align), fd, align + 3);
    Ok(MethodHandleTail(d, javaName, varargs, align))
  }

  /** The constant describeFunction declares, and the name it returns. */
  function DescName(javaName: string): string
  {
    javaName + "$DESC"
  }

  /** The buffer after describeFunction: a private descriptor constant, one level in, then the indentation of the level the call started at. */
  function AppendDescribeFunction(pre: string, javaName: string, fd: FunctionDescriptor, align: int): Result<string>
  {
    var d :- AppendFunctionDescriptor(pre + Indentation(align + 1) + PRI_MODS + "FunctionDescriptor " + DescName(javaName) + " = ",
                                      fd, align + 1);
    Ok(d + ";\n" + Indentation(align))
  }

  /** The buffer after describeStructLayout: the `$LAYOUT` constant of a struct class. */
  function AppendStructLayout(pre: string, l: MemoryLayout, align: int): Result<string>
  {
    var d :- AppendLayout(pre + Indentation(align) + PUB_MODS + "GroupLayout $LAYOUT = ", l, align);
    Ok(d + ";\n")
  }

  /** getLayoutName(elementName) */
  function LayoutName(elementName: string): string
  {
    elementName + "$LAYOUT"
  }

  /** The buffer after addLayout(elementName, layout): a public layout constant. */
  function AppendNamedLayout(pre: string, elementName: string, l: MemoryLayout, align: int): Result<string>
  {
    var d :- AppendLayout(pre + Indentation(align) + PUB_MODS + "MemoryLayout " + LayoutName(elementName) + " = ", l, align);
    Ok(d + ";\n")
  }

  // ---- function wrappers ----

  /** The class a wrapper parameter is declared with: an address parameter takes any Addressable. */
  function ParamClass(c: JClass): JClass
  {
    if c == MemoryAddress then Addressable else c
  }

  /** The name of parameter `i`: `x<i>` when it has none in C, else its safe name. */
  function ParamName(i: nat, p: Clang.Decl): string
  {
    if p.name == "" then "x" + NatToString(i) else NamingUtils.ToSafeName(p.name).value
  }

  /** The parameter declarations of the wrapper: declared class and name. */
  function ParamDecls(ps: seq<Clang.Decl>, types: seq<JClass>): (r: seq<string>)
    requires |ps| <= |types|
    ensures |r| == |ps|
  {
    seq(|ps|, i requires 0 <= i < |ps| => Name(ParamClass(types[i])) + " " + ParamName(i, ps[i]))
  }

  /** What the wrapper passes for a parameter: the address of an Addressable, else the parameter. */
  function ParamExpr(i: nat, p: Clang.Decl, t: JClass): string
  {
    if t == MemoryAddress then ParamName(i, p) + ".address()" else ParamName(i, p)
  }

  /** The name of the trailing variadic parameter of a wrapper with `n` named parameters. */
  function VarargsName(n: nat): string
  {
    "x" + NatToString(n)
  }

  /** What the wrapper passes for its first `n` parameters. */
  function ParamExprs(ps: seq<Clang.Decl>, types: seq<JClass>, n: nat): (r: seq<string>)
    requires n <= |ps| <= |types|
    ensures |r| == n
  {
    if n == 0 then [] else ParamExprs(ps, types, n - 1) + [ParamExpr(n - 1, ps[n - 1], types[n - 1])]
  }

  /** The i-th argument expression is that of the i-th parameter. */
  lemma {:induction false} ParamExprsAt(ps: seq<Clang.Decl>, types: seq<JClass>, n: nat, i: nat)
    requires i < n <= |ps| <= |types|
    ensures ParamExprs(ps, types, n)[i] == ParamExpr(i, ps[i], types[i])
  {
    var prev := ParamExprs(ps, types, n - 1);
    var last := ParamExpr(n - 1, ps[n - 1], types[n - 1]);
    assert ParamExprs(ps, types, n) == prev + [last];
    if i < n - 1 {
      ParamExprsAt(ps, types, n - 1, i);
      assert (prev + [last])[i] == prev[i];
    } else {
      assert i == n - 1;
      assert ParamExprs(ps, types, n)[i] == last;
    }
  }

  /** The arguments the wrapper passes to invokeExact: one per parameter, then the variadic array. */
  function ArgExprs(ps: seq<Clang.Decl>, types: seq<JClass>, varargs: bool): (r: seq<string>)
    requires |ps| <= |types|
    ensures |r| == |ps| + (if varargs then 1 else 0)
  {
    ParamExprs(ps, types, |ps|) + (if varargs then [VarargsName(|ps|)] else [])
  }

  /** The variadic parameter declaration after the named ones, as written: always preceded by ", ". */
  function VarargsDeclAsWritten(n: nat, varargs: bool): string
  {
    if varargs then ", Object... " + VarargsName(n) else ""
  }

  /** The variadic parameter declaration, preceded by ", " only when there are named parameters before it. */
  function VarargsDecl(n: nat, varargs: bool): string
  {
    if varargs then (if n == 0 then "" else ", ") + "Object... " + VarargsName(n) else ""
  }

  /** The parameter list of a wrapper with the given named parameter declarations, as written. */
  function ParamListAsWritten(decls: seq<string>, varargs: bool): string
  {
    "(" + JoinWith(", ", decls) + VarargsDeclAsWritten(|decls|, varargs) + ")"
  }

  /** The parameter list of a wrapper, with the delimiter corrected. */
  function ParamList(decls: seq<string>, varargs: bool): string
  {
    "(" + JoinWith(", ", decls) + VarargsDecl(|decls|, varargs) + ")"
  }

  /** All parameter declarations of the wrapper, the variadic one last. */
  function AllParamDecls(decls: seq<string>, varargs: bool): seq<string>
  {
    decls + (if varargs then ["Object... " + VarargsName(|decls|)] else [])
  }

  /**
   * As written, a variadic function without named parameters (what C reports for a
   * declaration without a prototype, `void f();`) gets the parameter list
   * `(, Object... x0)`, which is not Java.
   */
  lemma VarargsWithoutNamedParamsAsWritten()
    ensures ParamListAsWritten([], true) == "(, Object... x0)"
    ensures ParamList([], true) == "(Object... x0)"
  {
    assert NatToString(0) == "0";
  }

  /** Joining with one more part at the end. */
  lemma JoinWithAppend(sep: string, ds: seq<string>, v: string)
    ensures JoinWith(sep, ds + [v]) == JoinWith(sep, ds) + (if ds == [] then "" else sep) + v
  {
    var all := ds + [v];
    JoinWithSnoc(sep, all, |ds|);
    assert all[..|ds| + 1] == all && all[..|ds|] == ds;
  }

  lemma Regroup(x: string, j: string, sep: string, v: string, y: string)
    ensures x + j + (sep + v) + y == x + (j + sep + v) + y
    ensures x + j + "" + y == x + j + y
  {
  }

  /** The corrected parameter list is the declarations, the variadic one last, separated by ", ". */
  lemma ParamListJoinsDecls(decls: seq<string>, varargs: bool)
    ensures ParamList(decls, varargs) == "(" + JoinWith(", ", AllParamDecls(decls, varargs)) + ")"
  {
    if varargs {
      var v := "Object... " + VarargsName(|decls|);
      JoinWithAppend(", ", decls, v);
      var j := JoinWith(", ", decls);
      var sep := if decls == [] then "" else ", ";
      assert VarargsDecl(|decls|, varargs) == sep + v;
      Regroup("(", j, sep, v, ")");
    } else {
      assert AllParamDecls(decls, varargs) == decls;
      Regroup("(", JoinWith(", ", decls), "", "", ")");
    }
  }

  /**
   * Each parameter is passed to the native function under the name it is declared
   * with, in order, and an address parameter is declared Addressable and passed as
   * its address; the variadic array comes last under its declared name.
   */
  lemma WrapperPassesParameters(ps: seq<Clang.Decl>, types: seq<JClass>, varargs: bool, i: nat)
    requires |ps| <= |types| && i < |ps|
    ensures var d := ParamDecls(ps, types)[i];
            var e := ArgExprs(ps, types, varargs)[i];
            var n := ParamName(i, ps[i]);
            (types[i] == MemoryAddress ==> d == Name(Addressable) + " " + n && e == n + ".address()")
            && (types[i] != MemoryAddress ==> d == Name(types[i]) + " " + n && e == n)
    ensures varargs ==> ArgExprs(ps, types, varargs)[|ps|] == VarargsName(|ps|)
                        && AllParamDecls(ParamDecls(ps, types), varargs)[|ps|] == "Object... " + VarargsName(|ps|)
  {
    ParamExprsAt(ps, types, |ps|, i);
  }

  /** A name the generator makes up: `x` and a decimal number. */
  predicate IsGeneratedName(s: string)
  {
    |s| >= 2 && s[0] == 'x' && AllDigits(s[1..])
  }

  lemma GeneratedNameShape(i: nat)
    ensures IsGeneratedName("x" + NatToString(i)) && ("x" + NatToString(i))[1..] == NatToString(i)
  {
  }

  /** The names of the wrapper's parameters, the variadic one last. */
  function AllParamNames(ps: seq<Clang.Decl>, varargs: bool): (r: seq<string>)
    ensures |r| == |ps| + (if varargs then 1 else 0)
  {
    seq(|ps|, i requires 0 <= i < |ps| => ParamName(i, ps[i])) + (if varargs then [VarargsName(|ps|)] else [])
  }

  /** The i-th name: the safe name of a named C parameter, a made-up `x<i>` otherwise. */
  lemma ParamNameAt(ps: seq<Clang.Decl>, varargs: bool, i: nat)
    requires i < |AllParamNames(ps, varargs)|
    ensures AllParamNames(ps, varargs)[i] ==
              if i >= |ps| || ps[i].name == "" then "x" + NatToString(i) else NamingUtils.ToSafeName(ps[i].name).value
  {
    if i < |ps| {
      assert AllParamNames(ps, varargs)[i] == ParamName(i, ps[i]);
    }
  }

  /**
   * The wrapper's parameters have distinct names when the named C parameters have
   * distinct safe names, none of which looks like a made-up `x<n>`.
   */
  lemma ParamNamesDistinct(ps: seq<Clang.Decl>, varargs: bool)
    requires forall i, j :: 0 <= i < j < |ps| && ps[i].name != "" && ps[j].name != "" ==>
               NamingUtils.ToSafeName(ps[i].name) != NamingUtils.ToSafeName(ps[j].name)
    requires forall i :: 0 <= i < |ps| && ps[i].name != "" ==> !IsGeneratedName(NamingUtils.ToSafeName(ps[i].name).value)
    ensures var ns := AllParamNames(ps, varargs);
            forall i, j :: 0 <= i < j < |ns| ==> ns[i] != ns[j]
  {
    var ns := AllParamNames(ps, varargs);
    forall i, j | 0 <= i < j < |ns|
      ensures ns[i] != ns[j]
    {
      var gi := i >= |ps| || ps[i].name == "";
      var gj := j >= |ps| || ps[j].name == "";
      ParamNameAt(ps, varargs, i);
      ParamNameAt(ps, varargs, j);
      if gi && gj {
        GeneratedNameShape(i);
        GeneratedNameShape(j);
        if ns[i] == ns[j] {
          IntToStringInjective(i, j);
        }
      } else if gi {
        GeneratedNameShape(i);
      } else if gj {
        GeneratedNameShape(j);
      }
    }
  }

  /** The wrapper's signature, which opens its body. */
  function AppendWrapperHead(pre: string, javaName: string, ret: JClass, decls: seq<string>, n: nat, varargs: bool, align: int): string
  {
    pre
    + Indentation(align) + PUB_MODS + Name(ret) + " " + javaName + "("
    + JoinWith(", ", decls) + VarargsDecl(n, varargs)
    + ") {\n"
  }

  /** The wrapper's body: the call through the method handle, any failure rethrown. */
  function AppendWrapperBody(pre: string, mh: string, ret: JClass, args: seq<string>, align: int): string
  {
    AppendWrapperCatch(AppendWrapperCall(pre, mh, ret, args, align), align)
  }

  /** The call through the method handle, inside a `try`, casting the result unless the return type is void. */
  function AppendWrapperCall(pre: string, mh: string, ret: JClass, args: seq<string>, align: int): string
  {
    pre
    + Indentation(align + 1) + "try {\n"
    + Indentation(align + 2) + (if ret != Void then "return (" + Name(ret) + ") " else "")
    + mh + ".invokeExact(" + JoinWith(", ", args) + ");\n"
  }

  /** Any failure of the call is rethrown as an AssertionError; then the wrapper closes. */
  function AppendWrapperCatch(pre: string, align: int): string
  {
    pre
    + Indentation(align + 1) + "} catch (Throwable ex) {\n"
    + Indentation(align + 2) + "throw new AssertionError(ex);\n"
    + Indentation(align + 1) + "}\n"
    + Indentation(align) + "}\n"
  }

  /** The text after the method handle: the wrapper method, starting at `align`. */
  function AppendWrapper(pre: string, javaName: string, mh: string, mtype: MethodType,
                         ps: seq<Clang.Decl>, varargs: bool, align: int): string
    requires |ps| <= |mtype.params|
  {
    var head := AppendWrapperHead(pre, javaName, mtype.ret, ParamDecls(ps, mtype.params), |ps|, varargs, align);
    AppendWrapperBody(head, mh, mtype.ret, ArgExprs(ps, mtype.params, varargs), align)
  }

  /**
   * The buffer after addFunction(f, mtype, desc): the method handle of the function,
   * then its wrapper. The Java name and the library symbol are worked out first.
   */
  function AppendFunction(pre: string, f: Clang.Decl, mtype: MethodType, desc: FunctionDescriptor,
                          isMacOS: bool, align: int): Result<string>
    requires f.Function? && |f.params| <= |mtype.params|
  {
    var javaName :- NamingUtils.ToSafeName(f.name);
    var nativeName :- NamingUtils.SymbolInLib(f, isMacOS);
    var withMh :- AppendMethodHandle(pre, javaName, nativeName, mtype, desc, f.ftype.varargs, align);
    Ok(AppendWrapper(withMh, javaName, MethodHandleVar(javaName), mtype, f.params, f.ftype.varargs, align))
  }

  /**
   * A function is emitted exactly when it has a name, its library symbol can be
   * found, and its descriptor's layouts all have C names.
   */
  lemma AppendFunctionOk(pre: string, f: Clang.Decl, mtype: MethodType, desc: FunctionDescriptor, isMacOS: bool, align: int)
    requires f.Function? && |f.params| <= |mtype.params|
    ensures AppendFunction(pre, f, mtype, desc, isMacOS, align).Ok? <==>
              f.name != "" && NamingUtils.SymbolInLib(f, isMacOS).Ok?
              && (desc.returnLayout.Some? ==> Renderable(desc.returnLayout.value)) && AllRenderable(desc.argumentLayouts)
  {
    if f.name != "" && NamingUtils.SymbolInLib(f, isMacOS).Ok? {
      var javaName := NamingUtils.ToSafeName(f.name).value;
      var nativeName := NamingUtils.SymbolInLib(f, isMacOS).value;
      FunctionDescriptorRenderable(MethodHandleHead(pre, javaName, nativeName, mtype, align), desc, align + 3);
    }
  }

  // ---- constants ----

  /** String.valueOf(value) for a constant's value. */
  function ValueText(v: Clang.ConstValue): string
  {
    match v
    case LongValue(n) => IntToString(n)
    case DoubleValue(t) => t
    case StringValue(s) => s
  }

  /** Double.isFinite, read off Double.toString. */
  predicate IsFiniteText(t: string)
  {
    t != "NaN" && t != "Infinity" && t != "-Infinity"
  }

  /** The declaration addConstant writes up to the literal. */
  function ConstantHead(pre: string, name: string, typ: JClass, align: int): string
  {
    pre + Indentation(align) + PUB_MODS + Name(typ) + " " + name + " = "
  }

  /**
   * The literal of a constant: float and long values as themselves with a suffix,
   * doubles as themselves or, when not finite, through Double.valueOf, any other
   * class as a long literal cast to it. A double constant must hold a Double.
   */
  function ConstantLiteral(typ: JClass, value: Clang.ConstValue): Result<string>
  {
    if typ == Float then Ok(ValueText(value) + "f")
    else if typ == Long then Ok(ValueText(value) + "L")
    else if typ == Double then
      if !value.DoubleValue? then Err(ClassCastException)
      else if IsFiniteText(value.text) then Ok(value.text + "d")
      else Ok("Double.valueOf(\"" + value.text + "\")")
    else Ok("(" + Name(typ) + ")" + ValueText(value) + "L")
  }

  /** The buffer after addConstant: nothing but the indentation for an address or segment constant. */
  function AppendConstant(pre: string, name: string, typ: JClass, value: Clang.ConstValue, align: int): Result<string>
  {
    if typ == MemoryAddress || typ == MemorySegment then Ok(pre + Indentation(align))
    else
      var lit :- ConstantLiteral(typ, value);
      Ok(ConstantHead(pre, name, typ, align) + lit + ";\n")
  }

  /**
   * An integral constant is written as a decimal long literal, cast to its class
   * unless it is a long, that reads back as the constant's value.
   */
  lemma IntegralLiteralDenotesValue(typ: JClass, v: int)
    requires typ != Float && typ != Double
    ensures var lit := ConstantLiteral(typ, Clang.LongValue(v)).value;
            var cast := if typ == Long then "" else "(" + Name(typ) + ")";
            |lit| > |cast| && lit[|lit| - 1] == 'L' && lit[..|cast|] == cast
            && ParseInt(lit[|cast|..|lit| - 1]) == Some(v)
  {
    var cast := if typ == Long then "" else "(" + Name(typ) + ")";
    var lit := ConstantLiteral(typ, Clang.LongValue(v)).value;
    assert lit == cast + IntToString(v) + "L";
    assert lit[|cast|..|lit| - 1] == IntToString(v);
    IntRoundTrip(v);
  }

  /** A double constant that is not finite is built from its text; a finite one is its text with `d`. */
  lemma DoubleLiteral(text: string)
    ensures var lit := ConstantLiteral(Double, Clang.DoubleValue(text));
            lit.Ok? && (IsFiniteText(text) <==> lit.value == text + "d")
  {
    var lit := ConstantLiteral(Double, Clang.DoubleValue(text)).value;
    if !IsFiniteText(text) {
      assert lit[|lit| - 1] == ')';
    }
  }

  // ---- var handles ----

  /** String.contains */
  predicate Contains(s: string, t: string)
  {
    exists i :: 0 <= i <= |s| - |t| && OccursAt(s, t, i)
  }

  predicate OccursAt(s: string, t: string, i: int)
    requires 0 <= i <= |s| - |t|
  {
    s[i..i + |t|] == t
  }

  /** getVarHandleName(name, parent); `None` is a null parent. */
  function VarHandleName(name: string, parentName: Option<string>): string
  {
    "vh_" + (if parentName.None? then name else parentName.value + "$" + name)
  }

  /** Top-level variables get distinct var handle names. */
  lemma VarHandleNameInjective(a: string, b: string)
    requires VarHandleName(a, None) == VarHandleName(b, None)
    ensures a == b
  {
    assert a == VarHandleName(a, None)[3..];
    assert b == VarHandleName(b, None)[3..];
  }

  /** `, PathElement.sequenceElement()` once per dimension. */
  function SequenceElements(dimensions: int): string
  {
    if dimensions <= 0 then "" else SequenceElements(dimensions - 1) + ", PathElement.sequenceElement()"
  }

  /** addVarHandle reads an address-like class as a long and wraps the handle to give addresses. */
  predicate AddressCarrier(typ: JClass)
  {
    Contains(Name(typ), "MemoryAddress")
  }

  /** The buffer after addVarHandle(name, type, dimensions). */
  function AppendVarHandle(pre: string, name: string, typ: JClass, dimensions: int, align: int): string
  {
    var isAddr := AddressCarrier(typ);
    var ty := if isAddr then "long" else Name(typ);
    AppendVarHandleExpr(AppendVarHandleDecl(pre, name, align), name, ty, isAddr, dimensions, align + 1)
  }

  /** The declaration line of a global's var handle. */
  function AppendVarHandleDecl(pre: string, name: string, align: int): string
  {
    pre + Indentation(align) + PUB_MODS + "VarHandle " + VarHandleName(name, None) + " = \n"
  }

  /** The var handle's initialiser: the layout's handle with carrier `ty`, wrapped to give addresses when `isAddr`. */
  function AppendVarHandleExpr(pre: string, name: string, ty: string, isAddr: bool, dimensions: int, align: int): string
  {
    pre
    + Indentation(align) + (if isAddr then "MemoryHandles.asAddressVarHandle(" else "")
    + LayoutName(name) + ".varHandle(" + ty + ".class" + SequenceElements(dimensions) + ")"
    + (if isAddr then ")" else "") + ";\n"
  }

  /**
   * The var handle of a global is read with the carrier its class has: a primitive
   * as itself, an address (the interface or its implementation) as a long turned
   * into addresses, so the source form agrees with the class-file form on these classes.
   */
  lemma VarHandleCarrier(typ: JClass)
    ensures IsPrimitive(typ) ==> !AddressCarrier(typ)
    ensures IsAddress(typ) ==> AddressCarrier(typ)
  {
    if IsPrimitive(typ) {
      PrimitiveNameShort(typ);
    } else if IsAddress(typ) {
      AddressNameHasCarrier(typ);
    }
  }

  lemma PrimitiveNameShort(typ: JClass)
    requires IsPrimitive(typ)
    ensures |Name(typ)| < |"MemoryAddress"|
  {
  }

  lemma AddressNameHasCarrier(typ: JClass)
    requires IsAddress(typ)
    ensures AddressCarrier(typ)
  {
    var t := "MemoryAddress";
    if typ == MemoryAddress {
      assert OccursAt(Name(typ), t, 22);
    } else {
      assert OccursAt(Name(typ), t, 21);
    }
  }

  // ---- addresses and libraries ----

  /** addAddressLookup(name, symbol) */
  function AddressLookupText(name: string, symbol: string): string
  {
    "RuntimeHelper.lookupGlobalVariable(LIBRARIES, \"" + symbol + "\", " + LayoutName(name) + ")"
  }

  /** The buffer after addAddress(name, symbol): the address constant of a global, looked up with its layout. */
  function AppendAddress(pre: string, name: string, symbol: string, align: int): string
  {
    pre + Indentation(align) + PUB_MODS + "MemoryAddress " + name + "$ADDR" + " = " + AddressLookupText(name, symbol) + ";\n"
  }

  /**
   * What addPrimitiveGlobal(javaName, nativeName, layout, type, dimensions) writes after
   * the global's layout constant: its address and var handle constants, then its static
   * getter and setter, each taking one index per dimension.
   */
  function AppendGlobalHandles(pre: string, javaName: string, nativeName: string, typ: JClass, dimensions: int, align: int): string
  {
    var s := AppendVarHandle(AppendAddress(pre, javaName, nativeName, align), javaName, typ, dimensions, align);
    AppendGlobalAccessors(s, javaName, typ, dimensions, align)
  }

  /** The static getter and setter of a global, reading and writing through its var handle at its address. */
  function AppendGlobalAccessors(s: string, javaName: string, typ: JClass, dimensions: int, align: int): string
  {
    var addrStmt := javaName + "$ADDR";
    var typeName := if IsAddress(typ) then "MemoryAddress" else Name(typ);
    var vhStmt := VarHandleName(javaName, None);
    var g := AppendGlobalGetter(s, javaName, typeName, vhStmt, addrStmt, dimensions, align);
    AppendGlobalSetter(g, javaName, typeName, vhStmt, addrStmt, dimensions, align)
  }

  /** A global's getter: reads through the var handle at the global's address. */
  function AppendGlobalGetter(s: string, javaName: string, typeName: string, vhStmt: string, addrStmt: string, dimensions: int, align: int): string
  {
    var g := AppendGetterHead(s, javaName, typeName, dimensions, true, align);
    AppendCloseBracket(AppendVHGetter(g, typeName, vhStmt, addrStmt, dimensions, align + 1), align + 1)
  }

  /** A global's setter: writes through the var handle at the global's address. */
  function AppendGlobalSetter(s: string, javaName: string, typeName: string, vhStmt: string, addrStmt: string, dimensions: int, align: int): string
  {
    var t := AppendSetterHead(s, javaName, typeName, dimensions, true, align);
    AppendCloseBracket(AppendVHSetter(t, vhStmt, addrStmt, dimensions, align + 1), align + 1)
  }

  /** A named layout constant (and so a global, which starts with one) is emitted exactly when its layout can be rendered. */
  lemma NamedLayoutOk(pre: string, javaName: string, layout: MemoryLayout, align: int)
    ensures AppendNamedLayout(pre, javaName, layout, align).Ok? <==> Renderable(layout)
  {
    AppendLayoutOk(pre + Indentation(align) + PUB_MODS + "MemoryLayout " + LayoutName(javaName) + " = ", layout, align);
  }

  /** `"n"` */
  function Quote(s: string): string
  {
    "\"" + s + "\""
  }

  function QuoteAll(es: seq<string>): (r: seq<string>)
    ensures |r| == |es|
  {
    seq(|es|, i requires 0 <= i < |es| => Quote(es[i]))
  }

  const ARRAY_OPEN: string := "new String[] {"

  /** stringArray(elements): a Java array initialiser of the elements, quoted, separated by commas. */
  function StringArray(es: seq<string>): string
  {
    ARRAY_OPEN + JoinWith(",", QuoteAll(es)) + "}"
  }

  /** The buffer after addLibraries(names, paths). */
  function AppendLibraries(pre: string, names: seq<string>, paths: seq<string>, align: int): string
  {
    pre + Indentation(align) + PRI_MODS + "LibraryLookup[] LIBRARIES = RuntimeHelper.libraries("
    + (StringArray(names) + ", " + StringArray(paths) + ");\n")
  }

  /** The position of the first `c` at or after `from`, or the length. */
  function IndexFrom(s: string, c: char, from: nat): (r: nat)
    requires from <= |s|
    ensures from <= r <= |s| && (r < |s| ==> s[r] == c)
    ensures forall k :: from <= k < r ==> s[k] != c
    decreases |s| - from
  {
    if from == |s| then |s| else if s[from] == c then from else IndexFrom(s, c, from + 1)
  }

  /** Reads back comma-separated quoted strings. */
  function ParseQuoted(s: string): Option<seq<string>>
    decreases |s|
  {
    if |s| < 2 || s[0] != '"' then None
    else
      var j := IndexFrom(s, '"', 1);
      if j == |s| then None
      else if j + 1 == |s| then Some([s[1..j]])
      else if s[j + 1] != ',' then None
      else
        match ParseQuoted(s[j + 2..])
        case None => None
        case Some(rest) => Some([s[1..j]] + rest)
  }

  /** Reads back the elements of an array initialiser. */
  function ParseStringArray(t: string): Option<seq<string>>
  {
    if |t| < |ARRAY_OPEN| + 1 || t[..|ARRAY_OPEN|] != ARRAY_OPEN || t[|t| - 1] != '}' then None
    else
      var body := t[|ARRAY_OPEN|..|t| - 1];
      if body == "" then Some([]) else ParseQuoted(body)
  }

  lemma QuoteThenRest(e: string, rest: string)
    requires '"' !in e
    ensures var s := Quote(e) + rest;
            |s| >= 2 && s[0] == '"' && IndexFrom(s, '"', 1) == |e| + 1 && s[1..|e| + 1] == e && s[|e| + 2..] == rest
  {
    var s := Quote(e) + rest;
    assert s[|e| + 1] == '"';
    assert forall k :: 1 <= k < |e| + 1 ==> s[k] == e[k - 1];
    assert s[|e| + 2..] == rest;
  }

  /** Quoted, comma-separated elements without quotes in them read back as themselves. */
  lemma {:induction false} ParseQuotedRoundTrip(es: seq<string>)
    requires es != [] && forall i :: 0 <= i < |es| ==> '"' !in es[i]
    ensures ParseQuoted(JoinWith(",", QuoteAll(es))) == Some(es)
    decreases |es|
  {
    var e := es[0];
    if |es| == 1 {
      assert QuoteAll(es) == [Quote(e)];
      assert JoinWith(",", QuoteAll(es)) == Quote(e);
      ParseQuotedOne(e);
      assert es == [e];
    } else {
      var rest := es[1..];
      assert QuoteAll(es) == [Quote(e)] + QuoteAll(rest);
      JoinWithCons(",", Quote(e), QuoteAll(rest));
      var tail := JoinWith(",", QuoteAll(rest));
      Regroup2(Quote(e), ",", tail);
      ParseQuotedRoundTrip(rest);
      ParseQuotedCons(e, tail);
      assert JoinWith(",", QuoteAll(es)) == Quote(e) + ("," + tail);
      assert [e] + rest == es;
    }
  }

  lemma ParseQuotedOne(e: string)
    requires '"' !in e
    ensures ParseQuoted(Quote(e)) == Some([e])
  {
    QuoteThenRest(e, "");
    assert Quote(e) + "" == Quote(e);
  }

  lemma ParseQuotedCons(e: string, tail: string)
    requires '"' !in e
    ensures ParseQuoted(Quote(e) + ("," + tail)) ==
              match ParseQuoted(tail) case None => None case Some(r) => Some([e] + r)
  {
    QuoteThenRest(e, "," + tail);
    var s := Quote(e) + ("," + tail);
    assert s[|e| + 2] == ',';
    assert s[|e| + 3..] == tail;
  }

  /** stringArray loses nothing: an array of strings without quotes in them reads back as the strings. */
  lemma StringArrayRoundTrip(es: seq<string>)
    requires forall i :: 0 <= i < |es| ==> '"' !in es[i]
    ensures ParseStringArray(StringArray(es)) == Some(es)
  {
    var t := StringArray(es);
    var body := JoinWith(",", QuoteAll(es));
    assert t[..|ARRAY_OPEN|] == ARRAY_OPEN;
    assert t[|ARRAY_OPEN|..|t| - 1] == body;
    if es != [] {
      ParseQuotedRoundTrip(es);
      assert QuoteAll(es)[0][0] == '"';
      assert body != "" by {
        if |es| == 1 {
        } else {
          JoinWithCons(",", QuoteAll(es)[0], QuoteAll(es)[1..]);
          assert [QuoteAll(es)[0]] + QuoteAll(es)[1..] == QuoteAll(es);
        }
      }
    }
  }
}
