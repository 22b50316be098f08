/**
 * HeaderResolver: which package and which class names the binding of a header file gets.
 *
 * Folders are mapped to packages, first mapping wins. A header's package comes from the
 * nearest ancestor folder that has a package: the folders below it are appended as
 * sanitised segments. A folder with no mapped ancestor gets all its path components as
 * the package. Every package derived this way is recorded for its folder, and every
 * header resolved is remembered.
 *
 * Paths are already normalised and absolute; what the file system says about a path
 * (is it a directory, is it a regular file) is a `Disk` parameter.
 */
module HeaderResolution {
  import opened Wrappers
  import opened FilePaths
  import opened NamingUtils

  /** The answers of Files.isDirectory and Files.isRegularFile. */
  datatype Disk = Disk(directories: set<Path>, regularFiles: set<Path>)

  /** HeaderResolver.HeaderPath */
  datatype HeaderPath = HeaderPath(pkg: string, headerCls: string, forwarderCls: string)

  type PackageMap = map<Path, string>

  // ---- class names of a header ----

  /** The file name without the extension after its last '.'. */
  function BaseName(filename: string): (r: string)
    ensures r <= filename
    ensures '.' in filename ==> |r| < |filename| && filename[|r|] == '.' && '.' !in filename[|r| + 1..]
    ensures '.' !in filename ==> r == filename
  {
    var ext := LastIndexOf(filename, '.');
    if ext != -1 then filename[..ext] else filename
  }

  /** safeFileName: the base name made a safe identifier; an empty base name throws. */
  function SafeFileName(filename: string): (r: Result<string>)
    ensures r.Ok? <==> BaseName(filename) != []
    ensures r.Err? ==> r.error == IndexOutOfBoundsException
    ensures r.Ok? ==> IsValidSimpleIdentifier(r.value) && !IsKeyword(r.value)
  {
    var name := BaseName(filename);
    if name == [] then ToSafeName(name)
    else
      SafeNameIsValid(name);
      ToSafeName(name)
  }

  /** A valid identifier followed by '_' and identifier parts is still a valid identifier. */
  lemma SuffixedIsValid(id: string, suffix: string)
    requires IsValidSimpleIdentifier(id)
    requires forall i :: 0 <= i < |suffix| ==> IsJavaIdentifierPart(suffix[i])
    ensures IsValidSimpleIdentifier(id + "_" + suffix)
    ensures |id + "_" + suffix| == |id| + 1 + |suffix| && (id + "_" + suffix)[..|id|] == id
  {
    var r := id + "_" + suffix;
    assert r[..|id|] == id;
    assert IsJavaIdentifierPart('_');
    assert forall i :: 1 <= i < |r| ==> IsJavaIdentifierPart(r[i]) by {
      forall i | 1 <= i < |r|
        ensures IsJavaIdentifierPart(r[i])
      {
        if i < |id| { assert r[i] == id[i]; }
        else if i > |id| { assert r[i] == suffix[i - |id| - 1]; }
      }
    }
    assert r != "_" by { assert |r| >= 2; }
  }

  /** Every character of "lib" may continue a Java identifier. */
  lemma LibIsParts()
    ensures forall i :: 0 <= i < |"lib"| ==> IsJavaIdentifierPart("lib"[i])
  {
    assert IsJavaIdentifierPart('l') && IsJavaIdentifierPart('i') && IsJavaIdentifierPart('b');
  }

  /** headerInterfaceName: the safe file name followed by "_h". */
  function HeaderInterfaceName(filename: string): (r: Result<string>)
    ensures r.Ok? <==> SafeFileName(filename).Ok?
    ensures r.Err? ==> r.error == IndexOutOfBoundsException
    ensures r.Ok? ==> IsValidSimpleIdentifier(r.value)
    ensures r.Ok? ==> |r.value| > 2 && r.value[..|r.value| - 2] == SafeFileName(filename).value
  {
    var name :- SafeFileName(filename);
    assert IsJavaIdentifierPart("h"[0]);
    SuffixedIsValid(name, "h");
    Ok(name + "_h")
  }

  /** staticForwarderName: the safe file name followed by "_lib". */
  function StaticForwarderName(filename: string): (r: Result<string>)
    ensures r.Ok? <==> SafeFileName(filename).Ok?
    ensures r.Err? ==> r.error == IndexOutOfBoundsException
    ensures r.Ok? ==> IsValidSimpleIdentifier(r.value)
    ensures r.Ok? ==> |r.value| > 4 && r.value[..|r.value| - 4] == SafeFileName(filename).value
  {
    var name :- SafeFileName(filename);
    LibIsParts();
    SuffixedIsValid(name, "lib");
    Ok(name + "_lib")
  }

  /** The header class and the forwarder class of a header are never the same class. */
  lemma ClassNamesDiffer(filename: string)
    requires SafeFileName(filename).Ok?
    ensures HeaderInterfaceName(filename).value != StaticForwarderName(filename).value
  {
    var h, f := HeaderInterfaceName(filename).value, StaticForwarderName(filename).value;
    assert |h| + 2 == |f|;
  }

  /** Two header files with different base names can still share classes: sanitising merges them. */
  lemma SanitisingMergesNames()
    ensures HeaderInterfaceName("a-b.h") == HeaderInterfaceName("a+b.h") == Ok("a_b_h")
  {
    assert LastIndexOf("a-b.h", '.') == 3;
    assert LastIndexOf("a+b.h", '.') == 3;
    assert BaseName("a-b.h") == "a-b";
    assert BaseName("a+b.h") == "a+b";
    assert SanitiseAll("a-b") == "a_b";
    assert SanitiseAll("a+b") == "a_b";
    assert JavaIdentifier("a-b") == "a_b";
    assert JavaIdentifier("a+b") == "a_b";
    assert !IsKeyword("a_b");
    assert ToSafeName("a-b") == Ok("a_b") == ToSafeName("a+b");
    assert SafeFileName("a-b.h") == Ok("a_b") == SafeFileName("a+b.h");
    assert "a_b" + "_h" == "a_b_h";
  }

  // ---- folder to package ----

  /** Map.putIfAbsent */
  function PutIfAbsent(m: PackageMap, folder: Path, pkg: string): (r: PackageMap)
    ensures folder in r && r.Keys == m.Keys + {folder}
    ensures forall f :: f in m ==> r[f] == m[f]
    ensures folder !in m ==> r[folder] == pkg
  {
    if folder in m then m else m[folder := pkg]
  }

  /** usePackageForFolder is first-wins: a second mapping for the same folder changes nothing. */
  lemma FirstMappingWins(m: PackageMap, folder: Path, first: string, second: string)
    ensures PutIfAbsent(PutIfAbsent(m, folder, first), folder, second) == PutIfAbsent(m, folder, first)
    ensures PutIfAbsent(PutIfAbsent(m, folder, first), folder, second)[folder] == (if folder in m then m[folder] else first)
  {
  }

  /** The sub-package the built-in headers get. */
  const ClangSupport: string := "clang_support"

  /** The package the built-in headers' folder is mapped to. */
  function BuiltinPackage(defaultPkgName: string): string
  {
    if defaultPkgName == "" then ClangSupport else defaultPkgName + "." + ClangSupport
  }

  /** The built-in headers live in a clang_support package directly under the default package. */
  lemma BuiltinPackageSegments(defaultPkgName: string)
    ensures Segments(BuiltinPackage(defaultPkgName)) == (if defaultPkgName == "" then [] else Segments(defaultPkgName)) + [ClangSupport]
  {
    assert forall j :: 0 <= j < |ClangSupport| ==> ClangSupport[j] != '.';
    SubPackageSegments(defaultPkgName, ClangSupport);
  }

  lemma SubPackageSegments(base: string, leaf: string)
    requires forall j :: 0 <= j < |leaf| ==> leaf[j] != '.'
    ensures base == "" ==> Segments(leaf) == [leaf]
    ensures base != "" ==> Segments(base + "." + leaf) == Segments(base) + [leaf]
  {
    SegmentsNoDot(leaf);
    if base != "" {
      SegmentsSplitLast(base, leaf);
      assert base + "." + leaf == base + ['.'] + leaf;
    }
  }

  /** The folder nearest to `p` (itself or an ancestor) that has a package: the longest mapped prefix. */
  function NearestMapped(m: PackageMap, p: Path): (r: Option<Path>)
    ensures r.Some? ==> r.value in m && r.value <= p
    ensures r.Some? ==> forall n :: |r.value| < n <= |p| ==> p[..n] !in m
    ensures r.None? ==> forall n :: 0 <= n <= |p| ==> p[..n] !in m
  {
    if p in m then Some(p)
    else if p == [] then None
    else
      var q := p[..|p| - 1];
      assert p[..|p|] == p;
      assert forall n :: 0 <= n <= |q| ==> q[..n] == p[..n];
      NearestMapped(m, q)
  }

  /** toJavaIdentifier of each path component. */
  function Identifiers(segs: seq<Segment>): (r: seq<string>)
    ensures |r| == |segs|
  {
    seq(|segs|, i requires 0 <= i < |segs| => JavaIdentifier(segs[i]))
  }

  /** The loop in resolveHeaderPath: `base`, then each part, separated by '.'; no separator before the first part of an empty base. */
  function Qualified(base: string, parts: seq<string>): string
  {
    if parts == [] then base
    else Qualified(base, parts[..|parts| - 1]) + (if base == "" && |parts| == 1 then "" else ".") + parts[|parts| - 1]
  }

  /** One more component extends the qualified name by a separator and the component's identifier. */
  lemma QualifiedStep(base: string, dir: Path, from: nat, i: nat)
    requires from <= i < |dir|
    ensures Qualified(base, Identifiers(dir[from..i + 1]))
            == Qualified(base, Identifiers(dir[from..i])) + (if base == "" && i == from then "" else ".") + JavaIdentifier(dir[i])
  {
    var ids := Identifiers(dir[from..i + 1]);
    assert ids[..i - from] == Identifiers(dir[from..i]);
  }

  /** String.join(".", parts) */
  function Join(parts: seq<string>): string
  {
    if parts == [] then ""
    else if |parts| == 1 then parts[0]
    else Join(parts[..|parts| - 1]) + "." + parts[|parts| - 1]
  }

  /** The package of a folder: extend the nearest mapped package, or join all the components. */
  function DerivedPackage(m: PackageMap, dir: Path): string
  {
    match NearestMapped(m, dir)
    case Some(p) => Qualified(m[p], Identifiers(dir[|p|..]))
    case None => Join(Identifiers(dir))
  }

  /** resolveHeaderPath(origin): the header path, and the package map after it. */
  function AfterResolve(m: PackageMap, disk: Disk, origin: Path): (Result<HeaderPath>, PackageMap)
  {
    if origin in disk.directories then (Err(IllegalStateException), m)
    else if origin == [] then (Err(NullPointerException), m)
    else
      var dir := origin[..|origin| - 1];
      var pkg := DerivedPackage(m, dir);
      var m' := PutIfAbsent(m, dir, pkg);
      var file := FileName(origin);
      match (HeaderInterfaceName(file), StaticForwarderName(file))
      case (Ok(h), Ok(f)) => (Ok(HeaderPath(pkg, h, f)), m')
      case _ => (Err(IndexOutOfBoundsException), m')
  }

  /** headerFor(path): the result, the package map and the header map after it; `None` is a null path. */
  function AfterHeaderFor(m: PackageMap, headers: map<Path, HeaderPath>, disk: Disk, builtinHeader: Path, path: Option<Path>)
    : (Result<HeaderPath>, PackageMap, map<Path, HeaderPath>)
  {
    var p := if path.None? then builtinHeader else path.value;
    if p !in disk.regularFiles then (Err(IllegalArgumentException), m, headers)
    else if p in headers then (Ok(headers[p]), m, headers)
    else
      var (r, m') := AfterResolve(m, disk, p);
      (r, m', if r.Ok? then headers[p := r.value] else headers)
  }

  /** The segments loop: `base` extended by the components of `dir` from index `from`. */
  method AppendSegments(base: string, dir: Path, from: nat) returns (pkg: string)
    requires from <= |dir|
    ensures pkg == Qualified(base, Identifiers(dir[from..]))
  {
    pkg := base;
    var sep := if pkg == "" then "" else ".";
    var i := from;
    while i < |dir|
      invariant from <= i <= |dir|
      invariant pkg == Qualified(base, Identifiers(dir[from..i]))
      invariant sep == (if base == "" && i == from then "" else ".")
    {
      var id := ToJavaIdentifier(dir[i]);
      QualifiedStep(base, dir, from, i);
      pkg := pkg + sep + id.value;
      sep := ".";
      i := i + 1;
    }
    assert dir[from..i] == dir[from..];
  }

  class HeaderResolver {
    var pkgMap: PackageMap
    var headerMap: map<Path, HeaderPath>
    const builtinHeader: Path
    const defaultPkgName: string

    /** The built-in headers' folder is mapped to clang_support under the default package. */
    constructor (defaultPkgName: string, builtinHeadersDir: Path, builtinHeader: Path)
      ensures this.defaultPkgName == defaultPkgName && this.builtinHeader == builtinHeader
      ensures pkgMap == map[builtinHeadersDir := BuiltinPackage(defaultPkgName)]
      ensures headerMap == map[]
    {
      this.defaultPkgName := defaultPkgName;
      this.builtinHeader := builtinHeader;
      pkgMap := map[];
      headerMap := map[];
      new;
      UsePackageForFolder(builtinHeadersDir, BuiltinPackage(defaultPkgName));
    }

    /** usePackageForFolder(folder, pkg) */
    method UsePackageForFolder(folder: Path, pkg: string)
      modifies this
      ensures pkgMap == PutIfAbsent(old(pkgMap), folder, pkg)
      ensures headerMap == old(headerMap)
    {
      if folder !in pkgMap {
        pkgMap := pkgMap[folder := pkg];
      }
    }

    /** usePackageForFolder(folder): the default package. */
    method UseDefaultPackageForFolder(folder: Path)
      modifies this
      ensures pkgMap == PutIfAbsent(old(pkgMap), folder, defaultPkgName)
      ensures headerMap == old(headerMap)
    {
      UsePackageForFolder(folder, defaultPkgName);
    }

    /** The walk up from `dir` to the nearest folder that has a package. */
    method FindNearest(dir: Path) returns (path: Option<Path>)
      ensures path == NearestMapped(pkgMap, dir)
    {
      path := Some(dir);
      while path.Some? && path.value !in pkgMap
        invariant path.Some? ==> NearestMapped(pkgMap, dir) == NearestMapped(pkgMap, path.value)
        invariant path.None? ==> NearestMapped(pkgMap, dir).None?
        decreases if path.Some? then |path.value| + 1 else 0
      {
        path := Parent(path.value);
      }
    }

    /** The inference loop: every component of `dir` as an identifier, joined by '.'. */
    method InferPackage(dir: Path) returns (pkg: string)
      ensures pkg == Join(Identifiers(dir))
    {
      var parts: seq<string> := [];
      for i := 0 to |dir|
        invariant parts == Identifiers(dir[..i])
      {
        var id := ToJavaIdentifier(dir[i]);
        parts := parts + [id.value];
      }
      assert dir[..|dir|] == dir;
      pkg := Join(parts);
    }

    /** resolveHeaderPath(origin) */
    method ResolveHeaderPath(disk: Disk, origin: Path) returns (r: Result<HeaderPath>)
      modifies this
      ensures (r, pkgMap) == AfterResolve(old(pkgMap), disk, origin)
      ensures headerMap == old(headerMap)
    {
      if origin in disk.directories {
        return Err(IllegalStateException);
      }
      if origin == [] {
        return Err(NullPointerException);
      }
      var filename := FileName(origin);
      var dir := origin[..|origin| - 1];
      var path := FindNearest(dir);
      var pkg: string;
      if path.Some? {
        pkg := pkgMap[path.value];
        if |path.value| != |dir| {
          pkg := AppendSegments(pkg, dir, |path.value|);
          UsePackageForFolder(dir, pkg);
        } else {
          assert path.value == dir;
          assert dir[|dir|..] == [];
        }
      } else {
        pkg := InferPackage(dir);
        UsePackageForFolder(dir, pkg);
      }
      var h := HeaderInterfaceName(filename);
      var f := StaticForwarderName(filename);
      if h.Err? || f.Err? {
        return Err(IndexOutOfBoundsException);
      }
      r := Ok(HeaderPath(pkg, h.value, f.value));
    }

    /** headerFor(path); `None` is a null path. */
    method HeaderFor(disk: Disk, path: Option<Path>) returns (r: Result<HeaderPath>)
      modifies this
      ensures (r, pkgMap, headerMap) == AfterHeaderFor(old(pkgMap), old(headerMap), disk, builtinHeader, path)
    {
      var p := if path.None? then builtinHeader else path.value;
      if p !in disk.regularFiles {
        return Err(IllegalArgumentException);
      }
      if p in headerMap {
        return Ok(headerMap[p]);
      }
      r := ResolveHeaderPath(disk, p);
      if r.Ok? {
        headerMap := headerMap[p := r.value];
      }
    }
  }

  // ---- properties ----

  lemma {:induction false} IdentifiersAreSegments(segs: seq<Segment>)
    ensures forall i :: 0 <= i < |segs| ==> Identifiers(segs)[i] != [] && '.' !in Identifiers(segs)[i]
  {
    forall i | 0 <= i < |segs|
      ensures Identifiers(segs)[i] != [] && '.' !in Identifiers(segs)[i]
    {
      JavaIdentifierShape(segs[i]);
      assert !IsJavaIdentifierPart('.');
    }
  }

  /** The segments loop puts exactly one '.' between parts, and none before the first part of an empty base. */
  lemma {:induction false} QualifiedSegments(base: string, parts: seq<string>)
    requires parts != []
    requires forall i :: 0 <= i < |parts| ==> '.' !in parts[i]
    ensures Segments(Qualified(base, parts)) == (if base == "" then [] else Segments(base)) + parts
  {
    var init, last := parts[..|parts| - 1], parts[|parts| - 1];
    assert '.' !in last;
    var pre := if base == "" then [] else Segments(base);
    if |parts| == 1 {
      assert parts == [last];
      if base == "" {
        assert Qualified(base, parts) == last;
        SegmentsNoDot(last);
      } else {
        assert Qualified(base, parts) == base + ['.'] + last;
        SegmentsSplitLast(base, last);
      }
    } else {
      assert forall i :: 0 <= i < |init| ==> init[i] == parts[i];
      QualifiedSegments(base, init);
      var q := Qualified(base, init);
      assert Segments(q) == pre + init;
      assert Qualified(base, parts) == q + ['.'] + last;
      SegmentsSplitLast(q, last);
      assert Segments(Qualified(base, parts)) == pre + init + [last];
      assert init + [last] == parts;
    }
  }

  /** String.join splits back into the parts it joined. */
  lemma {:induction false} JoinSegments(parts: seq<string>)
    requires parts != []
    requires forall i :: 0 <= i < |parts| ==> '.' !in parts[i]
    ensures Segments(Join(parts)) == parts
  {
    var init, last := parts[..|parts| - 1], parts[|parts| - 1];
    if |parts| == 1 {
      SegmentsNoDot(last);
    } else {
      JoinSegments(init);
      assert Join(parts) == Join(init) + ['.'] + last;
      SegmentsSplitLast(Join(init), last);
      assert init + [last] == parts;
    }
  }

  /**
   * The package of a folder below its nearest mapped ancestor `p` is p's package
   * followed by the sanitised names of the folders in between; with no mapped
   * ancestor it is the sanitised names of all the folders.
   */
  lemma DerivedPackageSegments(m: PackageMap, dir: Path)
    ensures var pkg := DerivedPackage(m, dir);
      match NearestMapped(m, dir)
      case Some(p) =>
        (p == dir ==> pkg == m[p])
        && (p != dir && m[p] == "" ==> Segments(pkg) == Identifiers(dir[|p|..]))
        && (p != dir && m[p] != "" ==> Segments(pkg) == Segments(m[p]) + Identifiers(dir[|p|..]))
      case None =>
        dir != [] ==> Segments(pkg) == Identifiers(dir)
  {
    match NearestMapped(m, dir)
    case Some(p) =>
      IdentifiersAreSegments(dir[|p|..]);
      if p != dir {
        assert |p| < |dir|;
        QualifiedSegments(m[p], Identifiers(dir[|p|..]));
      } else {
        assert dir[|p|..] == [];
      }
    case None =>
      if dir != [] {
        IdentifiersAreSegments(dir);
        JoinSegments(Identifiers(dir));
      }
  }

  /**
   * Resolving a header records its folder's package: the map only grows, the folder
   * is mapped to the header's package, and any other header in that folder gets the same one.
   */
  lemma ResolveRecordsPackage(m: PackageMap, disk: Disk, origin: Path)
    requires origin !in disk.directories && origin != []
    ensures var (r, m') := AfterResolve(m, disk, origin);
      var dir := origin[..|origin| - 1];
      && (forall f :: f in m ==> f in m' && m'[f] == m[f])
      && m'.Keys == m.Keys + {dir}
      && m'[dir] == DerivedPackage(m, dir)
      && DerivedPackage(m', dir) == DerivedPackage(m, dir)
      && (r.Ok? ==> r.value.pkg == m'[dir])
  {
    var dir := origin[..|origin| - 1];
    if dir in m {
      assert NearestMapped(m, dir) == Some(dir);
      assert dir[|dir|..] == [];
    }
    var m' := AfterResolve(m, disk, origin).1;
    assert NearestMapped(m', dir) == Some(dir);
    assert dir[|dir|..] == [];
  }

  /** Once headerFor has resolved a path, asking again gives the same answer and changes nothing. */
  lemma HeaderForMemoised(m: PackageMap, headers: map<Path, HeaderPath>, disk: Disk, builtinHeader: Path, path: Option<Path>)
    requires AfterHeaderFor(m, headers, disk, builtinHeader, path).0.Ok?
    ensures var (r, m', headers') := AfterHeaderFor(m, headers, disk, builtinHeader, path);
      AfterHeaderFor(m', headers', disk, builtinHeader, path) == (r, m', headers')
  {
  }

  /** headerFor never forgets or changes a header it has resolved, nor a folder's package. */
  lemma HeaderForOnlyGrows(m: PackageMap, headers: map<Path, HeaderPath>, disk: Disk, builtinHeader: Path, path: Option<Path>)
    ensures var (_, m', headers') := AfterHeaderFor(m, headers, disk, builtinHeader, path);
      (forall f :: f in m ==> f in m' && m'[f] == m[f])
      && (forall p :: p in headers ==> p in headers' && headers'[p] == headers[p])
  {
  }
}
