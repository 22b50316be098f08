/**
 * The source-mode header builder: a text buffer and an indentation level that the
 * emitting operations update in place. Each operation is proved to append exactly
 * the text the matching function of SourceText describes, and to leave the
 * indentation where it found it unless it opens or closes a block.
 */
module SourceBuilder {
  import opened Wrappers
  import opened JavaTypes
  import opened Layouts
  import opened Decimal
  import opened SourceText
  import Clang
  import NamingUtils

  class SourceOnlyBuilder {
    /** The text generated so far. */
    var sb: string
    /** The indentation level: four spaces each. */
    var align: int
    /** build() has handed out the text and dropped the buffer. */
    var built: bool
    /** Whether symbols are looked up the macOS way (a leading underscore dropped from assembler labels). */
    const isMacOS: bool

    /** A builder starts empty at level zero. */
    constructor (isMacOS: bool)
      ensures sb == "" && align == 0 && !built && this.isMacOS == isMacOS
    {
      sb := "";
      align := 0;
      built := false;
      this.isMacOS := isMacOS;
    }

    /** build(): the text, after which the buffer is gone. */
    method Build() returns (res: string)
      requires !built
      modifies this
      ensures res == old(sb) && built && align == old(align)
    {
      res := sb;
      sb := "";
      built := true;
    }

    method IncrAlign()
      modifies this
      ensures align == old(align) + 1 && sb == old(sb) && built == old(built)
    {
      align := align + 1;
    }

    method DecrAlign()
      modifies this
      ensures align == old(align) - 1 && sb == old(sb) && built == old(built)
    {
      align := align - 1;
    }

    /** indent(): four spaces per level. */
    method Indent()
      requires !built
      modifies this
      ensures sb == old(sb) + Indentation(align) && align == old(align) && built == old(built)
    {
      var i := 0;
      while i < align
        invariant 0 <= i && (i <= align || i == 0)
        invariant sb == old(sb) + Indentation(i)
        invariant align == old(align) && built == old(built)
      {
        Regroup2(old(sb), Indentation(i), INDENT_UNIT);
        sb := sb + INDENT_UNIT;
        i := i + 1;
      }
    }

    method AddLineBreak()
      requires !built
      modifies this
      ensures sb == old(sb) + "\n" && align == old(align) && built == old(built)
    {
      sb := sb + "\n";
    }

    /** addLineBreaks(lines): one line break per line, none when the count is not positive. */
    method AddLineBreaks(lines: int)
      requires !built
      modifies this
      ensures sb == old(sb) + Newlines(lines) && align == old(align) && built == old(built)
    {
      var n := lines;
      while n > 0
        invariant lines > 0 ==> 0 <= n <= lines
        invariant lines <= 0 ==> n == lines
        invariant sb == old(sb) + Newlines(lines - n)
        invariant align == old(align) && built == old(built)
      {
        Regroup2(old(sb), Newlines(lines - n), "\n");
        sb := sb + "\n";
        n := n - 1;
      }
    }

    /** addImportSection() */
    method AddImportSection()
      requires !built
      modifies this
      ensures sb == old(sb) + IMPORTS && align == old(align) && built == old(built)
    {
      sb := sb + IMPORTS;
    }

    /** addPackagePrefix(pkgName) */
    method AddPackagePrefix(pkgName: string)
      requires !built
      modifies this
      ensures sb == AppendPackagePrefix(old(sb), pkgName) && align == old(align) && built == old(built)
    {
      sb := sb + HEADER;
      if pkgName != "" {
        sb := sb + PACKAGE_KEYWORD;
        sb := sb + pkgName;
        sb := sb + ";\n\n";
      }
      AddImportSection();
    }

    /** classBegin(name): opens a block one level in. */
    method ClassBegin(name: string)
      requires !built
      modifies this
      ensures sb == AppendClassBegin(old(sb), name, old(align)) && align == old(align) + 1 && built == old(built)
    {
      Indent();
      sb := sb + PUB_CLS_MODS + "class ";
      sb := sb + name;
      sb := sb + " {\n";
      IncrAlign();
    }

    /** classBegin(isStatic, name, superClass, superInterfaces); an empty superclass is none. */
    method ClassBeginWith(isStatic: bool, name: string, superClass: string, superInterfaces: seq<string>)
      requires !built
      modifies this
      ensures sb == AppendClassBeginWith(old(sb), isStatic, name, superClass, superInterfaces, old(align))
      ensures align == old(align) + 1 && built == old(built)
    {
      Indent();
      sb := sb + (if isStatic then PUB_MODS else PUB_CLS_MODS);
      sb := sb + "class ";
      sb := sb + name;
      ghost var head := sb;
      ghost var ext := if superClass != "" then " extends " + superClass else "";
      ghost var impl := if superInterfaces != [] then " implements " + JoinWith(", ", superInterfaces) else "";
      if superClass != "" {
        sb := sb + (" extends " + superClass);
      }
      assert sb == head + ext;
      if superInterfaces != [] {
        sb := sb + (" implements " + JoinWith(", ", superInterfaces));
      }
      assert sb == head + ext + impl;
      sb := sb + " {\n";
      IncrAlign();
    }

    /** closeBracket(): closes the block one level out. */
    method CloseBracket()
      requires !built
      modifies this
      ensures sb == AppendCloseBracket(old(sb), old(align)) && align == old(align) - 1 && built == old(built)
    {
      DecrAlign();
      Indent();
      sb := sb + "}\n";
    }

    /** classEnd() */
    method ClassEnd()
      requires !built
      modifies this
      ensures sb == AppendCloseBracket(old(sb), old(align)) && align == old(align) - 1 && built == old(built)
    {
      CloseBracket();
    }

    // ---- accessors ----

    /** beginGetter(javaName, typeName, dimensions, isGlobal): opens the getter's body. */
    method BeginGetter(javaName: string, typeName: string, dimensions: int, isGlobal: bool)
      requires !built
      modifies this
      ensures sb == AppendGetterHead(old(sb), javaName, typeName, dimensions, isGlobal, old(align))
      ensures align == old(align) + 1 && built == old(built)
    {
      Indent();
      sb := sb + (if isGlobal then PUB_MODS else PUB_CLS_MODS);
      sb := sb + typeName;
      sb := sb + " ";
      sb := sb + javaName + "$get(";
      ghost var s0 := sb;
      ghost var ds := IdxDecls(dimensions);
      var i := 0;
      while i < dimensions
        invariant 0 <= i <= |ds|
        invariant sb == s0 + JoinWith(", ", ds[..i])
        invariant align == old(align) && built == old(built)
      {
        JoinWithSnoc(", ", ds, i);
        if i > 0 {
          Regroup3(s0, JoinWith(", ", ds[..i]), ", ", ds[i]);
          sb := sb + ", ";
        } else {
          assert JoinWith(", ", ds[..i + 1]) == ds[i];
        }
        sb := sb + IdxDecl(i);
        i := i + 1;
      }
      assert ds[..i] == ds;
      sb := sb + ") {\n";
      IncrAlign();
    }

    /** beginSetter(javaName, typeName, dimensions, isGlobal): opens the setter's body. */
    method BeginSetter(javaName: string, typeName: string, dimensions: int, isGlobal: bool)
      requires !built
      modifies this
      ensures sb == AppendSetterHead(old(sb), javaName, typeName, dimensions, isGlobal, old(align))
      ensures align == old(align) + 1 && built == old(built)
    {
      Indent();
      sb := sb + (if isGlobal then PUB_MODS else PUB_CLS_MODS);
      sb := sb + "void " + javaName + "$set(";
      ghost var s0 := sb;
      assert s0 == old(sb) + Indentation(align) + (if isGlobal then PUB_MODS else PUB_CLS_MODS) + "void " + javaName + "$set(";
      var i := 0;
      while i < dimensions
        invariant 0 <= i && (i <= dimensions || i == 0)
        invariant sb == s0 + SetterIdx(i)
        invariant align == old(align) && built == old(built)
      {
        Regroup3(s0, SetterIdx(i), IdxDecl(i), ", ");
        sb := sb + IdxDecl(i) + ", ";
        i := i + 1;
      }
      assert SetterIdx(i) == SetterIdx(dimensions);
      sb := sb + typeName;
      sb := sb + " value) {\n";
      assert sb == s0 + SetterIdx(dimensions) + typeName + " value) {\n";
      IncrAlign();
    }

    /** emitVHGetter(typeName, vhStmt, addrStmt, dimensions) */
    method EmitVHGetter(typeName: string, vhStmt: string, addrStmt: string, dimensions: int)
      requires !built
      modifies this
      ensures sb == AppendVHGetter(old(sb), typeName, vhStmt, addrStmt, dimensions, old(align))
      ensures align == old(align) && built == old(built)
    {
      Indent();
      sb := sb + "return (" + typeName + ") ";
      sb := sb + vhStmt;
      sb := sb + ".get(";
      sb := sb + addrStmt;
      ghost var s0 := sb;
      var i := 0;
      while i < dimensions
        invariant 0 <= i && (i <= dimensions || i == 0)
        invariant sb == s0 + IdxArgs(i)
        invariant align == old(align) && built == old(built)
      {
        Regroup3(s0, IdxArgs(i), ", ", IdxName(i));
        sb := sb + ", " + IdxName(i);
        i := i + 1;
      }
      sb := sb + ");\n";
    }

    /** emitVHSetter(vhStmt, addrStmt, dimensions) */
    method EmitVHSetter(vhStmt: string, addrStmt: string, dimensions: int)
      requires !built
      modifies this
      ensures sb == AppendVHSetter(old(sb), vhStmt, addrStmt, dimensions, old(align))
      ensures align == old(align) && built == old(built)
    {
      Indent();
      sb := sb + vhStmt;
      sb := sb + ".set(";
      sb := sb + addrStmt;
      ghost var s0 := sb;
      var i := 0;
      while i < dimensions
        invariant 0 <= i && (i <= dimensions || i == 0)
        invariant sb == s0 + IdxArgs(i)
        invariant align == old(align) && built == old(built)
      {
        Regroup3(s0, IdxArgs(i), ", ", IdxName(i));
        sb := sb + ", " + IdxName(i);
        i := i + 1;
      }
      sb := sb + ", value);\n";
    }

    // ---- layouts ----

    /** addLayout(l): the layout's rendering; a scalar without a C name fails. */
    method AddLayout(l: MemoryLayout) returns (err: Option<Exception>)
      requires !built
      modifies this
      decreases l, 2
      ensures built == old(built)
      ensures var r := AppendLayout(old(sb), l, old(align));
              (err.None? <==> r.Ok?) && (r.Ok? ==> sb == r.value && align == old(align))
              && (r.Err? ==> err == Some(r.error))
    {
      match l {
        case ValueLayout(_, _, _, _, n) =>
          var t := TypeToLayoutName(l);
          if t.Err? {
            return Some(t.error);
          }
          sb := sb + t.value;
          AddName(n);
          err := None;
        case SequenceLayout(_, _, _) =>
          err := AddSequenceLayout(l);
        case GroupLayout(_, _, _, _) =>
          err := AddGroupLayout(l);
        case PaddingLayout(bits, n) =>
          sb := sb + ("MemoryLayout.ofPaddingBits(" + NatToString(bits) + ")");
          AddName(n);
          Regroup2(old(sb), "MemoryLayout.ofPaddingBits(" + NatToString(bits) + ")", NameSuffix(n));
          err := None;
      }
    }

    /** The `.withName(...)` a named layout ends with. */
    method AddName(name: Option<string>)
      requires !built
      modifies this
      ensures sb == old(sb) + NameSuffix(name) && align == old(align) && built == old(built)
    {
      if name.Some? {
        sb := sb + (".withName(\"" + name.value + "\")");
      }
    }

    /** A sequence layout: its element count when it has one, then its element. */
    method AddSequenceLayout(l: MemoryLayout) returns (err: Option<Exception>)
      requires !built && l.SequenceLayout?
      modifies this
      decreases l, 1
      ensures built == old(built)
      ensures var r := AppendLayout(old(sb), l, old(align));
              (err.None? <==> r.Ok?) && (r.Ok? ==> sb == r.value && align == old(align))
              && (r.Err? ==> err == Some(r.error))
    {
      var c, n := l.count, l.name;
      sb := sb + "MemoryLayout.ofSequence(";
      if c.Some? {
        sb := sb + (NatToString(c.value) + ", ");
      }
      Regroup2(old(sb), "MemoryLayout.ofSequence(", CountPrefix(c));
      assert sb == old(sb) + SequenceOpen(c);
      err := AddLayout(l.element);
      if err.Some? {
        return;
      }
      ghost var inner := sb;
      sb := sb + ")";
      AddName(n);
      Regroup2(inner, ")", NameSuffix(n));
    }

    /**
     * A struct or a union: its members one per line, one level in, then the closing
     * parenthesis on a line of its own. The C_COMPLEX_LONGDOUBLE object is written by name.
     */
    method AddGroupLayout(l: MemoryLayout) returns (err: Option<Exception>)
      requires !built && l.GroupLayout?
      modifies this
      decreases l, 1
      ensures built == old(built)
      ensures var r := AppendLayout(old(sb), l, old(align));
              (err.None? <==> r.Ok?) && (r.Ok? ==> sb == r.value && align == old(align))
              && (r.Err? ==> err == Some(r.error))
      ensures l.complexLongDouble ==> err.None? && sb == old(sb) + "C_COMPLEX_LONGDOUBLE" + NameSuffix(l.name)
    {
      var n := l.name;
      if l.complexLongDouble {
        sb := sb + "C_COMPLEX_LONGDOUBLE";
        AddName(n);
        return None;
      }
      if l.isStruct {
        sb := sb + "MemoryLayout.ofStruct(\n";
      } else {
        sb := sb + "MemoryLayout.ofUnion(\n";
      }
      assert sb == old(sb) + GroupOpen(l.isStruct);
      IncrAlign();
      err := AddMembers(l.members);
      if err.Some? {
        return;
      }
      ghost var inner := sb;
      sb := sb + "\n";
      DecrAlign();
      Indent();
      sb := sb + ")";
      AddName(n);
      Regroup4(inner, "\n", Indentation(old(align)), ")", NameSuffix(n));
    }

    /**
     * The members of a group or the arguments of a function descriptor, one per line
     * at the current level, separated by commas.
     */
    method AddMembers(ms: seq<MemoryLayout>) returns (err: Option<Exception>)
      requires !built
      modifies this
      decreases ms, 0
      ensures built == old(built)
      ensures var r := AppendMembers(old(sb), ms, old(align));
              (err.None? <==> r.Ok?) && (r.Ok? ==> sb == r.value && align == old(align))
              && (r.Err? ==> err == Some(r.error))
    {
      var delim := "";
      var i := 0;
      while i < |ms|
        invariant 0 <= i <= |ms|
        invariant AppendMembers(old(sb), ms[..i], old(align)) == Ok(sb)
        invariant delim == (if i == 0 then "" else ",\n")
        invariant align == old(align) && built == old(built)
      {
        ghost var init := sb;
        MembersStep(old(sb), ms, i, align, init);
        assert MemberSep(i, align) == delim + Indentation(align);
        Regroup2(init, delim, Indentation(align));
        sb := sb + delim;
        Indent();
        err := AddLayout(ms[i]);
        if err.Some? {
          MembersErrPersists(old(sb), ms, i + 1, old(align));
          return;
        }
        delim := ",\n";
        i := i + 1;
      }
      assert ms[..i] == ms;
      err := None;
    }

    /** addFunction(fd): `FunctionDescriptor.of(...)` or `FunctionDescriptor.ofVoid(...)`, arguments one per line one level in. */
    method AddFunctionDescriptor(fd: FunctionDescriptor) returns (err: Option<Exception>)
      requires !built
      modifies this
      ensures built == old(built)
      ensures var r := AppendFunctionDescriptor(old(sb), fd, old(align));
              (err.None? <==> r.Ok?) && (r.Ok? ==> sb == r.value && align == old(align))
              && (r.Err? ==> err == Some(r.error))
    {
      var noArgs := fd.argumentLayouts == [];
      if fd.returnLayout.Some? {
        sb := sb + "FunctionDescriptor.of(";
        err := AddLayout(fd.returnLayout.value);
        if err.Some? {
          return;
        }
        if !noArgs {
          sb := sb + ",";
        }
      } else {
        sb := sb + "FunctionDescriptor.ofVoid(";
      }
      if !noArgs {
        err := AddArgumentLines(fd.argumentLayouts);
        if err.Some? {
          return;
        }
      }
      sb := sb + ")";
      err := None;
    }

    /** The argument layouts of a descriptor, one per line one level in. */
    method AddArgumentLines(args: seq<MemoryLayout>) returns (err: Option<Exception>)
      requires !built
      modifies this
      ensures built == old(built)
      ensures var r := AppendArgumentLines(old(sb), args, old(align));
              (err.None? <==> r.Ok?) && (r.Ok? ==> sb == r.value && align == old(align))
              && (r.Err? ==> err == Some(r.error))
    {
      sb := sb + "\n";
      IncrAlign();
      err := AddMembers(args);
      if err.Some? {
        return;
      }
      sb := sb + "\n";
      DecrAlign();
      Indent();
    }

    /** addLayout(elementName, layout): a public layout constant `<elementName>$LAYOUT`. */
    method AddNamedLayout(elementName: string, l: MemoryLayout) returns (err: Option<Exception>)
      requires !built
      modifies this
      ensures built == old(built)
      ensures var r := AppendNamedLayout(old(sb), elementName, l, old(align));
              (err.None? <==> r.Ok?) && (r.Ok? ==> sb == r.value && align == old(align))
              && (r.Err? ==> err == Some(r.error))
    {
      Indent();
      sb := sb + PUB_MODS + "MemoryLayout " + LayoutName(elementName) + " = ";
      err := AddLayout(l);
      if err.Some? {
        return;
      }
      sb := sb + ";\n";
    }

    /** describeStructLayout(javaName, layout): the `$LAYOUT` constant of a struct class, whose name it returns. */
    method DescribeStructLayout(javaName: string, l: MemoryLayout) returns (r: Result<string>)
      requires !built
      modifies this
      ensures built == old(built)
      ensures var t := AppendStructLayout(old(sb), l, old(align));
              (r.Ok? <==> t.Ok?) && (t.Ok? ==> r.value == "$LAYOUT" && sb == t.value && align == old(align))
              && (t.Err? ==> r == Err(t.error))
    {
      Indent();
      sb := sb + PUB_MODS + "GroupLayout $LAYOUT = ";
      var err := AddLayout(l);
      if err.Some? {
        return Err(err.value);
      }
      sb := sb + ";\n";
      return Ok("$LAYOUT");
    }

    /**
     * describeFunction(javaName, fd): a private descriptor constant one level in, after
     * which the current level is indented; returns the constant's name.
     */
    method DescribeFunction(javaName: string, fd: FunctionDescriptor) returns (r: Result<string>)
      requires !built
      modifies this
      ensures built == old(built)
      ensures var t := AppendDescribeFunction(old(sb), javaName, fd, old(align));
              (r.Ok? <==> t.Ok?) && (t.Ok? ==> r.value == DescName(javaName) && sb == t.value && align == old(align))
              && (t.Err? ==> r == Err(t.error))
    {
      var varName := DescName(javaName);
      IncrAlign();
      Indent();
      sb := sb + PRI_MODS + "FunctionDescriptor " + varName + " = ";
      var err := AddFunctionDescriptor(fd);
      if err.Some? {
        return Err(err.value);
      }
      sb := sb + ";\n";
      DecrAlign();
      Indent();
      return Ok(varName);
    }

    /** The part of describeMethodHandle before the function descriptor, which goes three levels in. */
    method MethodHandleOpen(javaName: string, nativeName: string, mt: MethodType)
      requires !built
      modifies this
      ensures sb == MethodHandleHead(old(sb), javaName, nativeName, mt, old(align))
      ensures align == old(align) + 3 && built == old(built)
    {
      var mhVar := MethodHandleVar(javaName);
      MethodHandleField(mhVar);
      MethodHandleLookupOpen(mhVar, nativeName, mt);
    }

    method MethodHandleField(mhVar: string)
      requires !built
      modifies this
      ensures sb == MethodHandleDecl(old(sb), mhVar, old(align))
      ensures align == old(align) && built == old(built)
    {
      Indent();
      sb := sb + "public static MethodHandle " + mhVar + ";\n";
      Indent();
      sb := sb + PUB_MODS + "MethodHandle get" + mhVar + "() {\n";
    }

    method MethodHandleLookupOpen(mhVar: string, nativeName: string, mt: MethodType)
      requires !built
      modifies this
      ensures sb == MethodHandleLookup(old(sb), mhVar, nativeName, mt, old(align))
      ensures align == old(align) + 3 && built == old(built)
    {
      IncrAlign();
      Indent();
      sb := sb + "if (" + mhVar + " == null) {\n";
      IncrAlign();
      Indent();
      sb := sb + mhVar + " = RuntimeHelper.downcallHandle(\n";
      IncrAlign();
      EmitDowncallArgs(nativeName, mt);
    }

    method EmitDowncallArgs(nativeName: string, mt: MethodType)
      requires !built
      modifies this
      ensures sb == DowncallArgs(old(sb), nativeName, mt, old(align))
      ensures align == old(align) && built == old(built)
    {
      Indent();
      sb := sb + "LIBRARIES, \"" + nativeName + "\"";
      sb := sb + ",\n";
      Indent();
      sb := sb + "\"" + MethodDescriptor(mt) + "\",\n";
      Indent();
    }

    /** The part of describeMethodHandle after the function descriptor, back out at the starting level. */
    method MethodHandleClose(javaName: string, varargs: bool)
      requires !built
      modifies this
      ensures sb == MethodHandleTail(old(sb), javaName, varargs, old(align) - 3)
      ensures align == old(align) - 3 && built == old(built)
    {
      var mhVar := MethodHandleVar(javaName);
      sb := sb + ", ";
      sb := sb + BoolText(varargs);
      sb := sb + "\n";
      DecrAlign();
      Indent();
      sb := sb + ");\n";
      DecrAlign();
      Indent();
      sb := sb + "}\n";
      Indent();
      sb := sb + "return " + mhVar + ";\n";
      DecrAlign();
      Indent();
      sb := sb + "}\n";
    }

    /**
     * describeMethodHandle(javaName, nativeName, mt, fd, varargs): a static method
     * handle field and a getter that creates it on first use; returns the field's name.
     */
    method DescribeMethodHandle(javaName: string, nativeName: string, mt: MethodType, fd: FunctionDescriptor, varargs: bool)
      returns (r: Result<string>)
      requires !built
      modifies this
      ensures built == old(built)
      ensures var d := AppendFunctionDescriptor(MethodHandleHead(old(sb), javaName, nativeName, mt, old(align)), fd, old(align) + 3);
              (r.Ok? <==> d.Ok?)
              && (d.Ok? ==> r.value == MethodHandleVar(javaName) && sb == MethodHandleTail(d.value, javaName, varargs, old(align)) && align == old(align))
              && (d.Err? ==> r == Err(d.error))
    {
      MethodHandleOpen(javaName, nativeName, mt);
      var err := AddFunctionDescriptor(fd);
      if err.Some? {
        return Err(err.value);
      }
      MethodHandleClose(javaName, varargs);
      return Ok(MethodHandleVar(javaName));
    }

    /**
     * One parameter declaration of a wrapper, after `delim`: an address parameter is
     * declared Addressable and a parameter without a name is called `x<i>`; returns
     * what the wrapper passes for it.
     */
    method EmitParameter(i: nat, p: Clang.Decl, t: JClass, delim: string) returns (expr: string)
      requires !built
      modifies this
      ensures sb == old(sb) + (delim + (Name(ParamClass(t)) + " " + ParamName(i, p)))
      ensures expr == ParamExpr(i, p, t)
      ensures align == old(align) && built == old(built)
    {
      var pType := t;
      var pName := ParameterName(i, p);
      if pType == MemoryAddress {
        pType := Addressable;
        expr := pName + ".address()";
      } else {
        expr := pName;
      }
      sb := sb + (delim + (Name(pType) + " " + pName));
    }

    /** The name of parameter `i`: its safe name, or `x<i>` when it has none. */
    static method ParameterName(i: nat, p: Clang.Decl) returns (pName: string)
      ensures pName == ParamName(i, p)
    {
      pName := p.name;
      if pName == "" {
        pName := "x" + NatToString(i);
      } else {
        pName := NamingUtils.ToSafeName(pName).value;
      }
    }

    /**
     * The parameter declarations of a wrapper (an address parameter declared Addressable,
     * a parameter without a name called `x<i>`), the variadic one last; returns what the
     * wrapper passes for each.
     */
    method EmitParameters(ps: seq<Clang.Decl>, types: seq<JClass>, varargs: bool) returns (pExprs: seq<string>)
      requires !built && |ps| <= |types|
      modifies this
      ensures sb == old(sb) + JoinWith(", ", ParamDecls(ps, types)) + VarargsDecl(|ps|, varargs)
      ensures pExprs == ArgExprs(ps, types, varargs)
      ensures align == old(align) && built == old(built)
    {
      ghost var ds := ParamDecls(ps, types);
      var delim := "";
      pExprs := [];
      var i := 0;
      while i < |ps|
        invariant 0 <= i <= |ps|
        invariant sb == old(sb) + JoinWith(", ", ds[..i])
        invariant pExprs == ParamExprs(ps, types, i)
        invariant delim == (if i == 0 then "" else ", ")
        invariant align == old(align) && built == old(built)
      {
        JoinWithSnoc(", ", ds, i);
        RegroupPair(old(sb), JoinWith(", ", ds[..i]), delim, ds[i]);
        var expr := EmitParameter(i, ps[i], types[i], delim);
        pExprs := pExprs + [expr];
        delim := ", ";
        i := i + 1;
      }
      assert ds[..i] == ds;
      if varargs {
        var lastArg := "x" + NatToString(|ps|);
        Regroup3(sb, delim, "Object... ", lastArg);
        sb := sb + delim + "Object... " + lastArg;
        pExprs := pExprs + [lastArg];
      }
      assert pExprs == ArgExprs(ps, types, varargs);
    }

    /**
     * addFunction(f, mtype, desc): the method handle of a function and a static
     * wrapper that passes its parameters on, in order, and rethrows any failure as
     * an AssertionError.
     */
    method AddFunction(f: Clang.Decl, mtype: MethodType, desc: FunctionDescriptor) returns (err: Option<Exception>)
      requires !built
      requires f.Function? && |f.params| <= |mtype.params|
      modifies this
      ensures built == old(built)
      ensures var t := AppendFunction(old(sb), f, mtype, desc, isMacOS, old(align));
              (err.None? <==> t.Ok?) && (t.Ok? ==> sb == t.value && align == old(align))
              && (t.Err? ==> err == Some(t.error))
    {
      ghost var t := AppendFunction(old(sb), f, mtype, desc, isMacOS, old(align));
      var jn := NamingUtils.ToSafeName(f.name);
      if jn.Err? {
        assert t == Err(jn.error);
        return Some(jn.error);
      }
      var javaName := jn.value;
      var nn := NamingUtils.SymbolInLib(f, isMacOS);
      if nn.Err? {
        assert t == Err(nn.error);
        return Some(nn.error);
      }
      ghost var m := AppendMethodHandle(sb, javaName, nn.value, mtype, desc, f.ftype.varargs, align);
      assert t == if m.Err? then Err(m.error)
                 else Ok(AppendWrapper(m.value, javaName, MethodHandleVar(javaName), mtype, f.params, f.ftype.varargs, align));
      err := EmitFunction(javaName, nn.value, f.params, mtype, desc, f.ftype.varargs);
    }

    /** The method handle of a function with its names resolved, then its wrapper. */
    method EmitFunction(javaName: string, nativeName: string, ps: seq<Clang.Decl>, mtype: MethodType, desc: FunctionDescriptor,
                        varargs: bool) returns (err: Option<Exception>)
      requires !built && |ps| <= |mtype.params|
      modifies this
      ensures built == old(built)
      ensures var m := AppendMethodHandle(old(sb), javaName, nativeName, mtype, desc, varargs, old(align));
              (err.None? <==> m.Ok?)
              && (m.Ok? ==> sb == AppendWrapper(m.value, javaName, MethodHandleVar(javaName), mtype, ps, varargs, old(align)) && align == old(align))
              && (m.Err? ==> err == Some(m.error))
    {
      ghost var head := MethodHandleHead(sb, javaName, nativeName, mtype, align);
      ghost var d := AppendFunctionDescriptor(head, desc, align + 3);
      var mhr := DescribeMethodHandle(javaName, nativeName, mtype, desc, varargs);
      if mhr.Err? {
        assert AppendMethodHandle(old(sb), javaName, nativeName, mtype, desc, varargs, old(align)) == Err(d.error);
        return Some(mhr.error);
      }
      var mh := mhr.value;
      ghost var withMh := sb;
      assert AppendMethodHandle(old(sb), javaName, nativeName, mtype, desc, varargs, old(align)) == Ok(withMh);
      var pExprs := EmitWrapperHead(javaName, mtype.ret, ps, mtype.params, varargs);
      EmitWrapperBody(mh, mtype.ret, pExprs);
      assert sb == AppendWrapper(withMh, javaName, mh, mtype, ps, varargs, old(align));
      err := None;
    }

    /** The wrapper's signature; returns what it passes for each parameter. Opens the body. */
    method EmitWrapperHead(javaName: string, ret: JClass, ps: seq<Clang.Decl>, types: seq<JClass>, varargs: bool)
      returns (pExprs: seq<string>)
      requires !built && |ps| <= |types|
      modifies this
      ensures sb == AppendWrapperHead(old(sb), javaName, ret, ParamDecls(ps, types), |ps|, varargs, old(align))
      ensures pExprs == ArgExprs(ps, types, varargs)
      ensures align == old(align) + 1 && built == old(built)
    {
      Indent();
      sb := sb + PUB_MODS + Name(ret) + " " + javaName + "(";
      pExprs := EmitParameters(ps, types, varargs);
      sb := sb + ") {\n";
      IncrAlign();
    }

    /** The wrapper's body, from inside its opening brace to its closing one. */
    method EmitWrapperBody(mh: string, ret: JClass, pExprs: seq<string>)
      requires !built
      modifies this
      ensures sb == AppendWrapperBody(old(sb), mh, ret, pExprs, old(align) - 1)
      ensures align == old(align) - 1 && built == old(built)
    {
      EmitWrapperCall(mh, ret, pExprs);
      EmitWrapperCatch();
    }

    method EmitWrapperCall(mh: string, ret: JClass, pExprs: seq<string>)
      requires !built
      modifies this
      ensures sb == AppendWrapperCall(old(sb), mh, ret, pExprs, old(align) - 1)
      ensures align == old(align) + 1 && built == old(built)
    {
      Indent();
      sb := sb + "try {\n";
      IncrAlign();
      Indent();
      ghost var opening := sb;
      assert opening == old(sb) + Indentation(old(align)) + "try {\n" + Indentation(old(align) + 1);
      ghost var cast := if ret != Void then "return (" + Name(ret) + ") " else "";
      if ret != Void {
        sb := sb + ("return (" + Name(ret) + ") ");
      }
      assert sb == opening + cast;
      sb := sb + mh + ".invokeExact(" + JoinWith(", ", pExprs) + ");\n";
    }

    method EmitWrapperCatch()
      requires !built
      modifies this
      ensures sb == AppendWrapperCatch(old(sb), old(align) - 2)
      ensures align == old(align) - 2 && built == old(built)
    {
      DecrAlign();
      Indent();
      sb := sb + "} catch (Throwable ex) {\n";
      IncrAlign();
      Indent();
      sb := sb + "throw new AssertionError(ex);\n";
      CloseBracket();
      CloseBracket();
    }

    // ---- constants, globals, libraries ----

    /** The literal addConstant writes for a value of the given class. */
    method EmitLiteral(typ: JClass, value: Clang.ConstValue) returns (err: Option<Exception>)
      requires !built
      modifies this
      ensures built == old(built) && align == old(align)
      ensures var t := ConstantLiteral(typ, value);
              (err.None? <==> t.Ok?) && (t.Ok? ==> sb == old(sb) + t.value)
              && (t.Err? ==> err == Some(t.error) && sb == old(sb))
    {
      ghost var lit := ConstantLiteral(typ, value);
      if typ == Float {
        assert lit == Ok(ValueText(value) + "f");
        sb := sb + ValueText(value);
        sb := sb + "f";
        Regroup2(old(sb), ValueText(value), "f");
      } else if typ == Long {
        assert lit == Ok(ValueText(value) + "L");
        sb := sb + ValueText(value);
        sb := sb + "L";
        Regroup2(old(sb), ValueText(value), "L");
      } else if typ == Double {
        if !value.DoubleValue? {
          assert lit == Err(ClassCastException);
          return Some(ClassCastException);
        }
        if IsFiniteText(value.text) {
          assert lit == Ok(value.text + "d");
          sb := sb + value.text;
          sb := sb + "d";
          Regroup2(old(sb), value.text, "d");
        } else {
          assert lit == Ok("Double.valueOf(\"" + value.text + "\")");
          sb := sb + "Double.valueOf(\"";
          sb := sb + value.text;
          sb := sb + "\")";
          Regroup3(old(sb), "Double.valueOf(\"", value.text, "\")");
        }
      } else {
        var cast := "(" + Name(typ) + ")";
        assert lit == Ok(cast + ValueText(value) + "L");
        sb := sb + cast;
        sb := sb + (ValueText(value) + "L");
        Regroup2(old(sb), cast, ValueText(value) + "L");
        Regroup2(cast, ValueText(value), "L");
      }
      err := None;
    }

    /**
     * addConstant(name, type, value): a static final constant; nothing but the
     * indentation for an address or segment constant. A double constant whose value
     * is not a Double fails once the declaration up to `=` is written.
     */
    method AddConstant(name: string, typ: JClass, value: Clang.ConstValue) returns (err: Option<Exception>)
      requires !built
      modifies this
      ensures built == old(built) && align == old(align)
      ensures var t := AppendConstant(old(sb), name, typ, value, old(align));
              (err.None? <==> t.Ok?) && (t.Ok? ==> sb == t.value)
              && (t.Err? ==> err == Some(t.error) && sb == ConstantHead(old(sb), name, typ, old(align)))
    {
      Indent();
      if typ == MemoryAddress || typ == MemorySegment {
        return None;
      }
      sb := sb + PUB_MODS + Name(typ) + " " + name;
      sb := sb + " = ";
      err := EmitLiteral(typ, value);
      if err.Some? {
        return;
      }
      sb := sb + ";\n";
      err := None;
    }

    /** addLibraries(names, paths): the library lookups the generated class uses. */
    method AddLibraries(libraryNames: seq<string>, libraryPaths: seq<string>)
      requires !built
      modifies this
      ensures sb == AppendLibraries(old(sb), libraryNames, libraryPaths, old(align))
      ensures align == old(align) && built == old(built)
    {
      Indent();
      sb := sb + PRI_MODS + "LibraryLookup[] LIBRARIES = RuntimeHelper.libraries(";
      sb := sb + (StringArray(libraryNames) + ", " + StringArray(libraryPaths) + ");\n");
    }

    /** addAddressLookup(name, symbol) */
    method AddAddressLookup(name: string, symbol: string)
      requires !built
      modifies this
      ensures sb == old(sb) + AddressLookupText(name, symbol) && align == old(align) && built == old(built)
    {
      sb := sb + ("RuntimeHelper.lookupGlobalVariable(LIBRARIES, \"" + symbol + "\", " + LayoutName(name) + ")");
    }

    /** addAddress(name, symbol): the `<name>$ADDR` constant of a global. */
    method AddAddress(name: string, symbol: string)
      requires !built
      modifies this
      ensures sb == AppendAddress(old(sb), name, symbol, old(align)) && align == old(align) && built == old(built)
    {
      Indent();
      sb := sb + PUB_MODS + "MemoryAddress " + name + "$ADDR" + " = ";
      AddAddressLookup(name, symbol);
      sb := sb + ";\n";
    }

    /** One `PathElement.sequenceElement()` argument per dimension. */
    method EmitSequenceElements(dimensions: int)
      requires !built
      modifies this
      ensures sb == old(sb) + SequenceElements(dimensions) && align == old(align) && built == old(built)
    {
      var i := 0;
      while i < dimensions
        invariant 0 <= i && (i <= dimensions || i == 0)
        invariant sb == old(sb) + SequenceElements(i)
        invariant align == old(align) && built == old(built)
      {
        Regroup2(old(sb), SequenceElements(i), ", PathElement.sequenceElement()");
        sb := sb + ", PathElement.sequenceElement()";
        i := i + 1;
      }
    }

    /**
     * addVarHandle(name, type, dimensions): the var handle of a global, taking one
     * sequence index per dimension; an address class is read as a long.
     */
    method AddVarHandle(name: string, typ: JClass, dimensions: int)
      requires !built
      modifies this
      ensures sb == AppendVarHandle(old(sb), name, typ, dimensions, old(align)) && align == old(align) && built == old(built)
    {
      var ty := Name(typ);
      var isAddr := AddressCarrier(typ);
      if isAddr {
        ty := "long";
      }
      Indent();
      sb := sb + PUB_MODS + "VarHandle " + VarHandleName(name, None) + " = \n";
      IncrAlign();
      EmitVarHandleExpr(name, ty, isAddr, dimensions);
      DecrAlign();
    }

    method EmitVarHandleExpr(name: string, ty: string, isAddr: bool, dimensions: int)
      requires !built
      modifies this
      ensures sb == AppendVarHandleExpr(old(sb), name, ty, isAddr, dimensions, old(align))
      ensures align == old(align) && built == old(built)
    {
      var wrapOpen, wrapClose := "", "";
      if isAddr {
        wrapOpen, wrapClose := "MemoryHandles.asAddressVarHandle(", ")";
      }
      Indent();
      sb := sb + wrapOpen;
      sb := sb + LayoutName(name) + ".varHandle(" + ty + ".class";
      EmitSequenceElements(dimensions);
      sb := sb + ")" + wrapClose + ";\n";
    }

    /**
     * addPrimitiveGlobal(javaName, nativeName, layout, type, dimensions): the layout,
     * address and var handle of a global variable, and its static getter and setter.
     */
    method AddPrimitiveGlobal(javaName: string, nativeName: string, layout: MemoryLayout, typ: JClass, dimensions: int)
      returns (err: Option<Exception>)
      requires !built
      modifies this
      ensures built == old(built)
      ensures err.None? <==> Renderable(layout)
      ensures var r := AppendNamedLayout(old(sb), javaName, layout, old(align));
              (r.Ok? ==> sb == AppendGlobalHandles(r.value, javaName, nativeName, typ, dimensions, old(align)) && align == old(align))
              && (r.Err? ==> err == Some(r.error))
    {
      NamedLayoutOk(sb, javaName, layout, align);
      err := AddNamedLayout(javaName, layout);
      if err.Some? {
        return;
      }
      EmitGlobalHandles(javaName, nativeName, typ, dimensions);
    }

    /** The address, var handle, getter and setter of a global whose layout is already written. */
    method EmitGlobalHandles(javaName: string, nativeName: string, typ: JClass, dimensions: int)
      requires !built
      modifies this
      ensures sb == AppendGlobalHandles(old(sb), javaName, nativeName, typ, dimensions, old(align))
      ensures align == old(align) && built == old(built)
    {
      AddAddress(javaName, nativeName);
      AddVarHandle(javaName, typ, dimensions);
      EmitGlobalAccessors(javaName, typ, dimensions);
    }

    /** The static getter and setter of a global variable. */
    method EmitGlobalAccessors(javaName: string, typ: JClass, dimensions: int)
      requires !built
      modifies this
      ensures sb == AppendGlobalAccessors(old(sb), javaName, typ, dimensions, old(align))
      ensures align == old(align) && built == old(built)
    {
      var addrStmt := javaName + "$ADDR";
      var isAddr := IsAddress(typ);
      var typeName := if isAddr then "MemoryAddress" else Name(typ);
      var vhStmt := VarHandleName(javaName, None);
      EmitGlobalGetter(javaName, typeName, vhStmt, addrStmt, dimensions);
      EmitGlobalSetter(javaName, typeName, vhStmt, addrStmt, dimensions);
    }

    method EmitGlobalGetter(javaName: string, typeName: string, vhStmt: string, addrStmt: string, dimensions: int)
      requires !built
      modifies this
      ensures sb == AppendGlobalGetter(old(sb), javaName, typeName, vhStmt, addrStmt, dimensions, old(align))
      ensures align == old(align) && built == old(built)
    {
      BeginGetter(javaName, typeName, dimensions, true);
      EmitVHGetter(typeName, vhStmt, addrStmt, dimensions);
      CloseBracket();
    }

    method EmitGlobalSetter(javaName: string, typeName: string, vhStmt: string, addrStmt: string, dimensions: int)
      requires !built
      modifies this
      ensures sb == AppendGlobalSetter(old(sb), javaName, typeName, vhStmt, addrStmt, dimensions, old(align))
      ensures align == old(align) && built == old(built)
    {
      BeginSetter(javaName, typeName, dimensions, true);
      EmitVHSetter(vhStmt, addrStmt, dimensions);
      CloseBracket();
    }
  }
}
