/** The Java classes that the modelled code handles as values (`Class<?>` objects). */
module JavaTypes {

  datatype JClass =
    // primitive classes
    | Void | Boolean | Byte | Char | Short | Int | Long | Float | Double
    // their wrapper classes
    | BoxedVoid | BoxedBoolean | BoxedByte | BoxedChar | BoxedShort
    | BoxedInteger | BoxedLong | BoxedFloat | BoxedDouble
    // foreign-memory API classes
    | MemoryAddress | MemorySegment | Addressable
    /** an implementation class of MemoryAddress (a proper subtype) */
    | MemoryAddressImpl
    /** an implementation class of MemorySegment (a proper subtype) */
    | MemorySegmentImpl
    // other reference classes
    | ObjectClass | ObjectArray | StringClass | ThrowableClass | ListClass
    | OtherClass(name: string)

  /** Class.isPrimitive() */
  predicate IsPrimitive(c: JClass) {
    c.Void? || c.Boolean? || c.Byte? || c.Char? || c.Short? || c.Int? || c.Long? || c.Float? || c.Double?
  }

  /** MemoryAddress.class.isAssignableFrom(c) */
  predicate IsAddress(c: JClass) {
    c.MemoryAddress? || c.MemoryAddressImpl?
  }

  /** MemorySegment.class.isAssignableFrom(c) */
  predicate IsSegment(c: JClass) {
    c.MemorySegment? || c.MemorySegmentImpl?
  }

  /** java.lang.invoke.MethodType: a return class and parameter classes. */
  datatype MethodType = MethodType(ret: JClass, params: seq<JClass>)

  /** Class.getName() */
  function Name(c: JClass): string {
    match c
    case Void => "void"
    case Boolean => "boolean"
    case Byte => "byte"
    case Char => "char"
    case Short => "short"
    case Int => "int"
    case Long => "long"
    case Float => "float"
    case Double => "double"
    case BoxedVoid => "java.lang.Void"
    case BoxedBoolean => "java.lang.Boolean"
    case BoxedByte => "java.lang.Byte"
    case BoxedChar => "java.lang.Character"
    case BoxedShort => "java.lang.Short"
    case BoxedInteger => "java.lang.Integer"
    case BoxedLong => "java.lang.Long"
    case BoxedFloat => "java.lang.Float"
    case BoxedDouble => "java.lang.Double"
    case MemoryAddress => "jdk.incubator.foreign.MemoryAddress"
    case MemorySegment => "jdk.incubator.foreign.MemorySegment"
    case Addressable => "jdk.incubator.foreign.Addressable"
    case MemoryAddressImpl => "jdk.internal.foreign.MemoryAddressImpl"
    case MemorySegmentImpl => "jdk.internal.foreign.NativeMemorySegmentImpl"
    case ObjectClass => "java.lang.Object"
    case ObjectArray => "[Ljava.lang.Object;"
    case StringClass => "java.lang.String"
    case ThrowableClass => "java.lang.Throwable"
    case ListClass => "java.util.List"
    case OtherClass(n) => n
  }
}

/** java.nio.file.Path values: an absolute, normalised path as its name elements. */
module FilePaths {
  import opened Wrappers

  /** A name element of a path is never empty. */
  type Segment = s: string | s != [] witness "a"

  /** The root directory is the empty sequence of name elements. */
  type Path = seq<Segment>

  /** Path.getParent(): None for the root. */
  function Parent(p: Path): (r: Option<Path>)
    ensures r.Some? <==> p != []
    ensures r.Some? ==> r.value + [p[|p| - 1]] == p
  {
    if p == [] then None else Some(p[..|p| - 1])
  }

  /** Path.getFileName() of a path other than the root. */
  function FileName(p: Path): Segment
    requires p != []
  {
    p[|p| - 1]
  }

}

/** Java's fixed-width integer arithmetic, written out over unbounded integers. */
module JavaInts {

  const TWO_32: int := 0x1_0000_0000
  const TWO_64: int := 0x1_0000_0000_0000_0000

  predicate InInt(x: int) { -0x8000_0000 <= x < 0x8000_0000 }

  predicate InLong(x: int) { -0x8000_0000_0000_0000 <= x < 0x8000_0000_0000_0000 }

  /** Two's-complement truncation to 32 bits: `(int) x`, `Long.intValue()`. */
  function ToInt(x: int): (r: int)
    ensures InInt(r)
    ensures (r - x) % TWO_32 == 0
    ensures InInt(x) ==> r == x
  {
    var m := x % TWO_32;
    if m >= 0x8000_0000 then m - TWO_32 else m
  }

  /** Two's-complement wrap-around of a 64-bit result. */
  function ToLong(x: int): (r: int)
    ensures InLong(r)
    ensures (r - x) % TWO_64 == 0
    ensures InLong(x) ==> r == x
  {
    var m := x % TWO_64;
    if m >= 0x8000_0000_0000_0000 then m - TWO_64 else m
  }

  /** Java's `/`: the quotient rounded toward zero. */
  function JDiv(a: int, b: int): int
    requires b > 0
  {
    if a >= 0 then a / b else -((-a) / b)
  }

  /** Java's `%`: the remainder takes the sign of the dividend. */
  function JRem(a: int, b: int): int
    requires b > 0
  {
    if a >= 0 then a % b else -((-a) % b)
  }

  /** The quotient and remainder put the dividend back together, and the remainder is smaller than the divisor. */
  lemma JDivRem(a: int, b: int)
    requires b > 0
    ensures JDiv(a, b) * b + JRem(a, b) == a
    ensures -b < JRem(a, b) < b
    ensures a >= 0 ==> JRem(a, b) >= 0
    ensures a <= 0 ==> JRem(a, b) <= 0
  {
    if a < 0 {
      var q, r := (-a) / b, (-a) % b;
      assert q * b + r == -a;
    }
  }
}
