/**
 * Turning C names into Java names (NamingUtils).
 *
 * Strings are sequences of Basic Multilingual Plane characters, so `charAt` and
 * `codePointAt` agree. Character.isJavaIdentifierStart/Part are exact for the
 * Latin-1 range; every character above U+00FF is taken to be a letter.
 */
module NamingUtils {
  import opened Wrappers
  import opened Clang

  /** Character.isJavaIdentifierStart */
  predicate IsJavaIdentifierStart(c: char)
  {
    var n := c as int;
    ('A' <= c <= 'Z') || ('a' <= c <= 'z') || c == '$' || c == '_'
    || (0xA2 <= n <= 0xA5)                                  // currency signs
    || n == 0xAA || n == 0xB5 || n == 0xBA                  // letters among the symbols
    || (0xC0 <= n <= 0xD6) || (0xD8 <= n <= 0xF6) || (0xF8 <= n <= 0xFF)
    || n > 0xFF
  }

  /** Character.isIdentifierIgnorable, in the Latin-1 range */
  predicate IsIdentifierIgnorable(c: char)
  {
    var n := c as int;
    (0x00 <= n <= 0x08) || (0x0E <= n <= 0x1B) || (0x7F <= n <= 0x9F) || n == 0xAD
  }

  /** Character.isJavaIdentifierPart */
  predicate IsJavaIdentifierPart(c: char)
  {
    IsJavaIdentifierStart(c) || ('0' <= c <= '9') || IsIdentifierIgnorable(c)
  }

  /** SourceVersion.isKeyword for the latest release: the reserved words, the literals and "_". */
  predicate IsKeyword(s: string)
  {
    match s
    case "abstract" | "continue" | "for" | "new" | "switch" | "assert"
      | "default" | "if" | "package" | "synchronized" | "boolean" | "do"
      | "goto" | "private" | "this" | "break" | "double" | "implements"
      | "protected" | "throw" | "byte" | "else" | "import" | "public"
      | "throws" | "case" | "enum" | "instanceof" | "return" | "transient"
      | "catch" | "extends" | "int" | "short" | "try" | "char"
      | "final" | "interface" | "static" | "void" | "class" | "finally"
      | "long" | "strictfp" | "volatile" | "const" | "float" | "native"
      | "super" | "while" | "null" | "true" | "false" | "_" => true
    case _ => false
  }

  /** What validSimpleIdentifier accepts. */
  predicate IsValidSimpleIdentifier(name: string)
  {
    |name| > 0 && name != "_" && IsJavaIdentifierStart(name[0])
    && forall i :: 1 <= i < |name| ==> IsJavaIdentifierPart(name[i])
  }

  // ---- toJavaIdentifier ----

  function Sanitise(c: char): char
  {
    if IsJavaIdentifierPart(c) then c else '_'
  }

  function SanitiseAll(s: string): (r: string)
  {
    seq(|s|, i requires 0 <= i < |s| => Sanitise(s[i]))
  }

  /** The identifier toJavaIdentifier builds from a non-empty string. */
  function JavaIdentifier(s: string): string
    requires s != []
  {
    (if IsJavaIdentifierStart(s[0]) then "" else "_") + SanitiseAll(s)
  }

  /**
   * toJavaIdentifier: a leading '_' when the first character cannot start an
   * identifier, then every character that cannot be part of one replaced by '_'.
   * The empty string has no first character and throws.
   */
  method ToJavaIdentifier(str: string) returns (r: Result<string>)
    ensures str == [] ==> r == Err(IndexOutOfBoundsException)
    ensures str != [] ==> r == Ok(JavaIdentifier(str))
  {
    if |str| == 0 {
      return Err(IndexOutOfBoundsException);
    }
    var sb: string := [];
    if !IsJavaIdentifierStart(str[0]) {
      sb := sb + ['_'];
    }
    ghost var prefix := sb;
    var i := 0;
    while i < |str|
      invariant 0 <= i <= |str|
      invariant |sb| == |prefix| + i && sb[..|prefix|] == prefix
      invariant forall j :: 0 <= j < i ==> sb[|prefix| + j] == Sanitise(str[j])
    {
      var ch := str[i];
      if IsJavaIdentifierPart(ch) {
        sb := sb + [ch];
      } else {
        sb := sb + ['_'];
      }
      i := i + 1;
    }
    assert prefix == (if IsJavaIdentifierStart(str[0]) then "" else "_");
    assert sb == prefix + SanitiseAll(str);
    return Ok(sb);
  }

  /** The result starts like an identifier, consists of identifier parts, and keeps every part character. */
  lemma JavaIdentifierShape(s: string)
    requires s != []
    ensures var r := JavaIdentifier(s);
      && IsJavaIdentifierStart(r[0])
      && (forall i :: 0 <= i < |r| ==> IsJavaIdentifierPart(r[i]))
      && (|r| == |s| <==> IsJavaIdentifierStart(s[0]))
      && (|r| == |s| || |r| == |s| + 1)
      && (forall i :: 0 <= i < |s| && IsJavaIdentifierPart(s[i]) ==> r[|r| - |s| + i] == s[i])
  {
  }

  /** Every result of toJavaIdentifier is accepted by validSimpleIdentifier, except "_" itself. */
  lemma JavaIdentifierIsValid(s: string)
    requires s != [] && s != "_"
    ensures IsValidSimpleIdentifier(JavaIdentifier(s))
  {
    JavaIdentifierShape(s);
  }

  /** Sanitising an identifier changes nothing: toJavaIdentifier is idempotent. */
  lemma {:induction false} JavaIdentifierIdempotent(s: string)
    requires s != []
    ensures JavaIdentifier(JavaIdentifier(s)) == JavaIdentifier(s)
  {
    var r := JavaIdentifier(s);
    JavaIdentifierShape(s);
    SanitiseIdentity(r);
  }

  lemma {:induction false} SanitiseIdentity(r: string)
    requires forall i :: 0 <= i < |r| ==> IsJavaIdentifierPart(r[i])
    ensures SanitiseAll(r) == r
  {
    if r != [] {
      SanitiseIdentity(r[1..]);
    }
  }

  // ---- toSafeName ----

  /** toSafeName: the Java identifier, with '$' appended when it is a keyword. */
  function ToSafeName(name: string): (r: Result<string>)
    ensures name == [] <==> r.Err?
  {
    if name == [] then Err(IndexOutOfBoundsException)
    else
      var id := JavaIdentifier(name);
      Ok(if IsKeyword(id) then id + "$" else id)
  }

  /** No keyword contains '$'. */
  lemma DollarEndsNoKeyword(r: string)
    requires r != [] && r[|r| - 1] == '$'
    ensures !IsKeyword(r)
  {
  }

  /** An identifier-shaped name that is not a keyword is a valid simple identifier ("_" is a keyword). */
  lemma ShapedNonKeywordValid(id: string)
    requires id != [] && IsJavaIdentifierStart(id[0]) && forall i :: 0 <= i < |id| ==> IsJavaIdentifierPart(id[i])
    requires !IsKeyword(id)
    ensures IsValidSimpleIdentifier(id)
  {
    assert IsKeyword("_");
  }

  /** An identifier-shaped name with '$' appended is a valid simple identifier and no keyword. */
  lemma ShapedDollarValid(id: string)
    requires id != [] && IsJavaIdentifierStart(id[0]) && forall i :: 0 <= i < |id| ==> IsJavaIdentifierPart(id[i])
    ensures IsValidSimpleIdentifier(id + "$") && !IsKeyword(id + "$")
  {
    var r := id + "$";
    DollarEndsNoKeyword(r);
    assert r[0] == id[0];
    forall i | 1 <= i < |r|
      ensures IsJavaIdentifierPart(r[i])
    {
      if i < |id| {
        assert r[i] == id[i];
      } else {
        assert r[i] == '$';
      }
    }
    assert r != "_" by { assert |r| >= 2; }
  }

  /** A safe name is never a keyword and is always a valid simple identifier. */
  lemma SafeNameIsValid(name: string)
    requires name != []
    ensures !IsKeyword(ToSafeName(name).value)
    ensures IsValidSimpleIdentifier(ToSafeName(name).value)
    ensures IsKeyword(JavaIdentifier(name)) <==> ToSafeName(name).value == JavaIdentifier(name) + "$"
  {
    var id := JavaIdentifier(name);
    JavaIdentifierShape(name);
    if IsKeyword(id) {
      ShapedDollarValid(id);
    } else {
      ShapedNonKeywordValid(id);
      assert ToSafeName(name).value == id != id + "$";
    }
  }

  // ---- validPackageName / validSimpleIdentifier ----

  /** validSimpleIdentifier: returns the name, or throws IllegalArgumentException. */
  method ValidSimpleIdentifier(name: string) returns (r: Result<string>)
    ensures r.Ok? <==> IsValidSimpleIdentifier(name)
    ensures r.Ok? ==> r.value == name
    ensures r.Err? ==> r.error == IllegalArgumentException
  {
    var length := |name|;
    if length == 0 {
      return Err(IllegalArgumentException);
    }
    var ch := name[0];
    if length == 1 && ch == '_' {
      return Err(IllegalArgumentException);
    }
    if !IsJavaIdentifierStart(ch) {
      return Err(IllegalArgumentException);
    }
    var i := 1;
    while i < length
      invariant 1 <= i <= length
      invariant forall j :: 1 <= j < i ==> IsJavaIdentifierPart(name[j])
    {
      ch := name[i];
      if !IsJavaIdentifierPart(ch) {
        return Err(IllegalArgumentException);
      }
      i := i + 1;
    }
    return Ok(name);
  }

  /** String.lastIndexOf(c), -1 when absent. */
  function LastIndexOf(s: string, c: char): (r: int)
    ensures -1 <= r < |s|
    ensures r >= 0 ==> s[r] == c
    ensures forall j :: r < j < |s| ==> s[j] != c
  {
    if s == [] then -1
    else if s[|s| - 1] == c then |s| - 1
    else LastIndexOf(s[..|s| - 1], c)
  }

  /** The '.'-separated segments of a name, empty segments included. */
  function Segments(s: string): (r: seq<string>)
    ensures |r| >= 1
  {
    if s == [] then [[]]
    else
      var rest := Segments(s[1..]);
      if s[0] == '.' then [[]] + rest else [[s[0]] + rest[0]] + rest[1..]
  }

  lemma {:induction false} SegmentsNoDot(s: string)
    requires forall j :: 0 <= j < |s| ==> s[j] != '.'
    ensures Segments(s) == [s]
  {
    if s != [] {
      SegmentsNoDot(s[1..]);
      assert [s[0]] + s[1..] == s;
    }
  }

  lemma {:induction false} SegmentsSplitLast(a: string, b: string)
    requires forall j :: 0 <= j < |b| ==> b[j] != '.'
    ensures Segments(a + ['.'] + b) == Segments(a) + [b]
  {
    if a == [] {
      assert a + ['.'] + b == ['.'] + b;
      SegmentsNoDot(b);
      assert (['.'] + b)[1..] == b;
    } else {
      SegmentsSplitLast(a[1..], b);
      assert (a + ['.'] + b)[1..] == a[1..] + ['.'] + b;
    }
  }

  /** validPackageName: checks the segment after the last '.', then the prefix before it. */
  function ValidPackageName(name: string): (r: Result<string>)
    ensures r.Ok? ==> r.value == name
    ensures r.Err? ==> r.error == IllegalArgumentException
    decreases |name|
  {
    if name == [] then Err(IllegalArgumentException)
    else
      var idx := LastIndexOf(name, '.');
      if idx == -1 then
        if IsValidSimpleIdentifier(name) then Ok(name) else Err(IllegalArgumentException)
      else if !IsValidSimpleIdentifier(name[idx + 1..]) then Err(IllegalArgumentException)
      else match ValidPackageName(name[..idx])
        case Ok(_) => Ok(name)
        case Err(e) => Err(e)
  }

  /** A package name is valid exactly when every '.'-separated segment is a valid simple identifier. */
  lemma {:induction false} ValidPackageNameSegments(name: string)
    ensures ValidPackageName(name).Ok? <==>
      forall i :: 0 <= i < |Segments(name)| ==> IsValidSimpleIdentifier(Segments(name)[i])
    decreases |name|
  {
    if name == [] {
      assert Segments(name)[0] == [];
    } else {
      var idx := LastIndexOf(name, '.');
      if idx == -1 {
        SegmentsNoDot(name);
        assert Segments(name)[0] == name;
        assert ValidPackageName(name).Ok? <==> IsValidSimpleIdentifier(name);
      } else {
        var a, b := name[..idx], name[idx + 1..];
        assert name == a + ['.'] + b;
        SegmentsSplitLast(a, b);
        ValidPackageNameSegments(a);
        var segs := Segments(name);
        assert segs[|segs| - 1] == b;
        assert forall i :: 0 <= i < |Segments(a)| ==> segs[i] == Segments(a)[i];
      }
    }
  }

  // ---- getSymbolInLib ----

  function AsmLabel(d: Decl): Option<seq<string>>
  {
    match d
    case Function(_, _, _, _, l) => l
    case Variable(_, _, _, _, l) => l
    case _ => None
  }

  /**
   * getSymbolInLib: the first value of the AsmLabelAttr attribute, without its
   * leading character on macOS (where C symbols carry a leading '_'); the
   * declaration's name when there is no such attribute.
   */
  function SymbolInLib(d: Decl, isMacOS: bool): (r: Result<string>)
    ensures AsmLabel(d).None? ==> r == Ok(d.name)
    ensures AsmLabel(d).Some? && AsmLabel(d).value == [] ==> r == Err(IndexOutOfBoundsException)
    ensures AsmLabel(d).Some? && AsmLabel(d).value != [] && !isMacOS ==> r == Ok(AsmLabel(d).value[0])
    ensures AsmLabel(d).Some? && isMacOS && r.Ok? ==>
      AsmLabel(d).value != [] && AsmLabel(d).value[0] != [] && [AsmLabel(d).value[0][0]] + r.value == AsmLabel(d).value[0]
  {
    match AsmLabel(d)
    case None => Ok(d.name)
    case Some(l) =>
      if l == [] then Err(IndexOutOfBoundsException)
      else if !isMacOS then Ok(l[0])
      else if l[0] == [] then Err(IndexOutOfBoundsException)
      else Ok(l[0][1..])
  }
}
