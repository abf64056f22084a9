/**
 * Where `pool` puts one file: the directory computed from the file's name
 * and stem (src/misc.rs:154-174).
 *
 * The layout is `repo/pool/{archive}/main/source/{bucket}/{package}` for
 * source artifacts and `repo/pool/{archive}/main/binary-{arch}/{bucket}/{package}`
 * for everything else, where the bucket is the package's first byte.
 * The two byte slices of the source that can panic are modelled as `Panic`
 * results rather than excluded by preconditions.
 */
module PoolPath {
  import opened Wrappers
  import opened Text

  /** Which slice of the source panicked. */
  datatype Slice = Bucket | Arch

  /** The ways the name handling in misc.rs panics. */
  datatype Panic =
    | MissingUnderscore          // `expect("debian package lacks _ character")` in match_deb
    | OutOfRange(slice: Slice)   // the slice ends past the end of the string
    | SplitsCharacter(slice: Slice) // byte 1 falls inside a multi-byte character

  const PoolRoot: string := "repo/pool/"
  const DbgsymSuffix: string := "-dbgsym"

  /**
   * `Path::file_stem` for a file name: the name up to its last `.`, unless
   * there is no `.` or the only one leads the name.
   */
  function FileStem(name: string): (stem: string)
    ensures stem <= name
    ensures |name| > 0 ==> |stem| > 0
    ensures stem == name <==> forall i :: 0 < i < |name| ==> name[i] != '.'
    ensures stem != name ==> |stem| > 0 && name[|stem|] == '.' && '.' !in name[|stem| + 1..]
  {
    match FindLast(name, '.')
    case None => name
    case Some(i) => if i == 0 then name else name[..i]
  }

  /** The package name: the text before the first `_`, or "" when there is none (`unwrap_or(0)`). */
  function PackageOf(name: string): (package: string)
    ensures package <= name && '_' !in package
    ensures '_' in name ==> |package| < |name| && name[|package|] == '_'
    ensures '_' !in name ==> package == ""
  {
    match FindFirst(name, '_')
    case None => ""
    case Some(i) => name[..i]
  }

  /** A source artifact: the name ends in "dsc" or "tar.xz" (a plain suffix test, no dot). */
  predicate IsSource(name: string) {
    EndsWith(name, "dsc") || EndsWith(name, "tar.xz")
  }

  /** The package with one trailing "-dbgsym" removed, as the binary branch does. */
  function StripDbgsym(package: string): (stripped: string)
    ensures EndsWith(package, DbgsymSuffix) ==> package == stripped + DbgsymSuffix
    ensures !EndsWith(package, DbgsymSuffix) ==> stripped == package
  {
    if EndsWith(package, DbgsymSuffix) then package[..|package| - |DbgsymSuffix|] else package
  }

  /**
   * `&filestem[filestem.rfind('_').unwrap_or(0) + 1..]`: the stem after its
   * last `_`; with no `_`, the stem from byte 1 on, which panics on an empty
   * stem or when the first character is wider than a byte.
   */
  function ArchOf(stem: string): (r: Result<string, Panic>)
    ensures '_' in stem ==> r.Ok? && '_' !in r.value && |r.value| < |stem|
                            && stem == stem[..|stem| - |r.value| - 1] + "_" + r.value
    ensures '_' !in stem ==> (r.Ok? <==> |stem| > 0 && IsAscii(stem[0]))
    ensures '_' !in stem && r.Ok? ==> [stem[0]] + r.value == stem
    ensures r.Err? ==> !r.error.MissingUnderscore? && r.error.slice == Arch
  {
    match FindLast(stem, '_')
    case Some(j) =>
      assert stem == stem[..j] + "_" + stem[j + 1..];
      Ok(stem[j + 1..])
    case None =>
      if |stem| == 0 then Err(OutOfRange(Arch))
      else if !IsAscii(stem[0]) then Err(SplitsCharacter(Arch))
      else Ok(stem[1..])
  }

  /** `&package[0..1]`: the one-byte bucket, or the panic that slice raises. */
  function BucketOf(package: string): (r: Result<string, Panic>)
    ensures r.Ok? <==> |package| > 0 && IsAscii(package[0])
    ensures r.Ok? ==> |r.value| == 1 && r.value <= package
    ensures r.Err? ==> !r.error.MissingUnderscore? && r.error.slice == Bucket
  {
    if |package| == 0 then Err(OutOfRange(Bucket))
    else if !IsAscii(package[0]) then Err(SplitsCharacter(Bucket))
    else Ok(package[..1])
  }

  /** The directory `pool` creates for the file `name` in `archive`. */
  function ResolvePool(name: string, archive: string): (r: Result<string, Panic>)
    ensures r.Err? ==> !r.error.MissingUnderscore?
  {
    var package := PackageOf(name);
    if IsSource(name) then
      match BucketOf(package)
      case Err(p) => Err(p)
      case Ok(bucket) => Ok(PoolRoot + archive + "/main/source/" + bucket + "/" + package)
    else
      var package := StripDbgsym(package);
      match ArchOf(FileStem(name))
      case Err(p) => Err(p)
      case Ok(arch) =>
        match BucketOf(package)
        case Err(p) => Err(p)
        case Ok(bucket) => Ok(PoolRoot + archive + "/main/binary-" + arch + "/" + bucket + "/" + package)
  }

  // ----- The layout the resolver produces -----

  /** The source directory for package `p`. */
  function SourceDir(archive: string, p: string): string
    requires |p| > 0
  {
    PoolRoot + archive + "/main/source/" + p[..1] + "/" + p
  }

  /** The binary directory for package `p` built for `arch`. */
  function BinaryDir(archive: string, arch: string, p: string): string
    requires |p| > 0
  {
    PoolRoot + archive + "/main/binary-" + arch + "/" + p[..1] + "/" + p
  }

  /**
   * Any name ending in "dsc" or "tar.xz" goes under `main/source`, bucketed
   * by its (unstripped) package, or panics when that package cannot be bucketed.
   */
  lemma SourceGoesToSource(name: string, archive: string)
    requires IsSource(name)
    ensures var p := PackageOf(name);
            ResolvePool(name, archive) ==
              if |p| > 0 && IsAscii(p[0]) then Ok(SourceDir(archive, p)) else Err(BucketOf(p).error)
  {
  }

  /**
   * Any other name goes under `main/binary-{arch}`, with `arch` the stem after
   * its last `_` and the package stripped of "-dbgsym".
   */
  lemma BinaryGoesToBinary(name: string, archive: string, front: string, arch: string)
    requires !IsSource(name)
    requires FileStem(name) == front + "_" + arch && '_' !in arch
    ensures var p := StripDbgsym(PackageOf(name));
            ResolvePool(name, archive) ==
              if |p| > 0 && IsAscii(p[0]) then Ok(BinaryDir(archive, arch, p)) else Err(BucketOf(p).error)
  {
    ArchAfterLastUnderscore(front, arch);
  }

  /** The arch is exactly what follows the stem's last `_`. */
  lemma ArchAfterLastUnderscore(front: string, arch: string)
    requires '_' !in arch
    ensures ArchOf(front + "_" + arch) == Ok(arch)
  {
    var stem := front + "_" + arch;
    assert stem[|front|] == '_';
    assert stem[|front| + 1..] == arch;
  }

  /**
   * A name whose package part is empty (no `_`, or a leading `_`) is never
   * placed: some slice of the resolver panics.
   */
  lemma EmptyPackageRejected(name: string, archive: string)
    requires PackageOf(name) == ""
    ensures ResolvePool(name, archive).Err?
  {
  }

  /** A placed file's directory always ends in `/{bucket}/{package}` with the bucket the package's first byte. */
  lemma BucketIsFirstByte(name: string, archive: string)
    requires ResolvePool(name, archive).Ok?
    ensures var p := if IsSource(name) then PackageOf(name) else StripDbgsym(PackageOf(name));
            |p| > 0 && IsAscii(p[0]) &&
            EndsWith(ResolvePool(name, archive).value, "/" + [p[0]] + "/" + p)
  {
    if IsSource(name) {
      var p := PackageOf(name);
      assert BucketOf(p).Ok?;
      assert ResolvePool(name, archive).value == SourceDir(archive, p);
      SourceDirEnds(archive, p);
    } else {
      var p := StripDbgsym(PackageOf(name));
      var arch := ArchOf(FileStem(name));
      assert arch.Ok? && BucketOf(p).Ok?;
      assert ResolvePool(name, archive).value == BinaryDir(archive, arch.value, p);
      BinaryDirEnds(archive, arch.value, p);
    }
  }

  lemma SourceDirEnds(archive: string, p: string)
    requires |p| > 0
    ensures EndsWith(SourceDir(archive, p), "/" + [p[0]] + "/" + p)
  {
    var front := PoolRoot + archive + "/main/source";
    assert p[..1] == [p[0]];
    assert SourceDir(archive, p) == front + ("/" + [p[0]] + "/" + p);
    EndsWithAppended(front, "/" + [p[0]] + "/" + p);
  }

  lemma BinaryDirEnds(archive: string, arch: string, p: string)
    requires |p| > 0
    ensures EndsWith(BinaryDir(archive, arch, p), "/" + [p[0]] + "/" + p)
  {
    var front := PoolRoot + archive + "/main/binary-" + arch;
    assert p[..1] == [p[0]];
    assert BinaryDir(archive, arch, p) == front + ("/" + [p[0]] + "/" + p);
    EndsWithAppended(front, "/" + [p[0]] + "/" + p);
  }

  // ----- Names that follow the Debian convention -----

  /** The package of `p_rest` is `p` when `p` has no `_`. */
  lemma PackageBeforeUnderscore(p: string, rest: string)
    requires '_' !in p
    ensures PackageOf(p + "_" + rest) == p
  {
    var name := p + "_" + rest;
    assert name[|p|] == '_';
    assert name[..|p|] == p;
  }

  /** The stem of `front.ext` is `front` when `ext` has no `.` and `front` is not empty. */
  lemma StemDropsExtension(front: string, ext: string)
    requires |front| > 0 && '.' !in ext
    ensures FileStem(front + "." + ext) == front
  {
    var name := front + "." + ext;
    assert name[|front|] == '.';
    assert name[|front| + 1..] == ext;
    assert name[..|front|] == front;
  }

  /** `P_V_A.deb` goes to `main/binary-A/{P[0]}/P`. */
  lemma DebDestination(p: string, v: string, a: string, archive: string)
    requires '_' !in p && '_' !in a && |p| > 0 && IsAscii(p[0])
    requires !EndsWith(p, DbgsymSuffix)
    ensures ResolvePool(p + "_" + v + "_" + a + ".deb", archive) == Ok(BinaryDir(archive, a, p))
  {
    var name := p + "_" + v + "_" + a + ".deb";
    BinaryNameResolves(p, v, a, name, archive);
  }

  /** `P-dbgsym_V_A.deb` goes to the directory of `P`, not of `P-dbgsym`. */
  lemma DbgsymDestination(p: string, v: string, a: string, archive: string)
    requires '_' !in p && '_' !in a && |p| > 0 && IsAscii(p[0])
    ensures ResolvePool(p + DbgsymSuffix + "_" + v + "_" + a + ".deb", archive) == Ok(BinaryDir(archive, a, p))
  {
    var name := (p + DbgsymSuffix) + "_" + v + "_" + a + ".deb";
    assert p + DbgsymSuffix + "_" + v + "_" + a + ".deb" == name;
    BinaryNameResolves(p + DbgsymSuffix, v, a, name, archive);
    EndsWithAppended(p, DbgsymSuffix);
  }

  /** The common part of the two `.deb` lemmas. */
  lemma BinaryNameResolves(package: string, v: string, a: string, name: string, archive: string)
    requires name == package + "_" + v + "_" + a + ".deb"
    requires '_' !in package && '_' !in a
    ensures PackageOf(name) == package && !IsSource(name)
    ensures ResolvePool(name, archive).Ok? || ResolvePool(name, archive) == Err(BucketOf(StripDbgsym(package)).error)
    ensures ResolvePool(name, archive).Ok? ==> ResolvePool(name, archive).value == BinaryDir(archive, a, StripDbgsym(package))
  {
    PackageBeforeUnderscore(package, v + "_" + a + ".deb");
    assert name == package + "_" + (v + "_" + a + ".deb");
    assert name[|name| - 3..] == "deb";
    assert name[|name| - 1] == 'b';
    var front := package + "_" + v + "_" + a;
    assert name == front + "." + "deb";
    StemDropsExtension(front, "deb");
    assert front == (package + "_" + v) + "_" + a;
    BinaryGoesToBinary(name, archive, package + "_" + v, a);
  }

  /** A binary name with no extension, `P_V_A`, still goes to `main/binary-A/{P[0]}/P`: its stem is the whole name. */
  lemma BareBinaryDestination(p: string, v: string, a: string, archive: string)
    requires '_' !in p && '_' !in a && |p| > 0 && IsAscii(p[0])
    requires '.' !in p + "_" + v + "_" + a
    requires !EndsWith(p, DbgsymSuffix) && !IsSource(p + "_" + v + "_" + a)
    ensures ResolvePool(p + "_" + v + "_" + a, archive) == Ok(BinaryDir(archive, a, p))
  {
    var name := p + "_" + v + "_" + a;
    assert name == p + "_" + (v + "_" + a);
    PackageBeforeUnderscore(p, v + "_" + a);
    assert forall i :: 0 < i < |name| ==> name[i] != '.' by {
      forall i | 0 < i < |name| ensures name[i] != '.' {
        assert name[i] in name;
      }
    }
    assert FileStem(name) == name;
    assert name == (p + "_" + v) + "_" + a;
    BinaryGoesToBinary(name, archive, p + "_" + v, a);
  }

  /** `P_V.dsc` goes to `main/source/{P[0]}/P`. */
  lemma DscDestination(p: string, v: string, archive: string)
    requires '_' !in p && |p| > 0 && IsAscii(p[0])
    ensures ResolvePool(p + "_" + v + ".dsc", archive) == Ok(SourceDir(archive, p))
  {
    var name := p + "_" + v + ".dsc";
    assert name == p + "_" + (v + ".dsc");
    PackageBeforeUnderscore(p, v + ".dsc");
    EndsWithAppended(p + "_" + v + ".", "dsc");
    assert name == (p + "_" + v + ".") + "dsc";
    SourceGoesToSource(name, archive);
  }

  /** `P_V.orig.tar.xz` goes to `main/source/{P[0]}/P`. */
  lemma OrigTarDestination(p: string, v: string, archive: string)
    requires '_' !in p && |p| > 0 && IsAscii(p[0])
    ensures ResolvePool(p + "_" + v + ".orig.tar.xz", archive) == Ok(SourceDir(archive, p))
  {
    var name := p + "_" + v + ".orig.tar.xz";
    assert name == p + "_" + (v + ".orig.tar.xz");
    PackageBeforeUnderscore(p, v + ".orig.tar.xz");
    assert name == (p + "_" + v + ".orig.") + "tar.xz";
    EndsWithAppended(p + "_" + v + ".orig.", "tar.xz");
    SourceGoesToSource(name, archive);
  }

  /** A source package named `P-dbgsym` keeps its suffix: only the binary branch strips it. */
  lemma SourceKeepsDbgsym(p: string, v: string, archive: string)
    requires '_' !in p && |p| > 0 && IsAscii(p[0])
    ensures ResolvePool(p + DbgsymSuffix + "_" + v + ".dsc", archive) == Ok(SourceDir(archive, p + DbgsymSuffix))
  {
    assert p + DbgsymSuffix + "_" + v + ".dsc" == (p + DbgsymSuffix) + "_" + v + ".dsc";
    DscDestination(p + DbgsymSuffix, v, archive);
  }
}
