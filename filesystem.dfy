/**
 * The part of `std::fs` that `pool` relies on, over an abstract filesystem:
 * a set of directories and a map from file paths to contents. Paths are
 * strings with `/` between components.
 */
module FileSystem {
  import opened Wrappers
  import opened Text

  type Path = string
  type Bytes = seq<bv8>

  datatype IoError =
    | NotFound(path: Path)
    | NotADirectory(path: Path)
    | IsADirectory(path: Path)
    | EntryUnreadable          // `read_dir` yielded an `Err` for one entry

  datatype State = State(dirs: set<Path>, files: map<Path, Bytes>) {
    /** No path is both a directory and a file. */
    predicate Valid() {
      dirs !! files.Keys
    }
  }

  /** One call made on the filesystem, whatever its result. */
  datatype Call =
    | CreateDirAllCall(path: Path)
    | RenameCall(from: Path, to: Path)
    | CopyCall(from: Path, to: Path)

  /** Every directory `create_dir_all(p)` needs: each prefix of `p` that ends before a `/`, and `p`. */
  function Ancestors(p: Path): (a: set<Path>)
    ensures p in a
  {
    {p} + set i | 0 < i < |p| && p[i] == '/' :: p[..i]
  }

  lemma AncestorNoLonger(p: Path, q: Path)
    requires q in Ancestors(p)
    ensures |q| <= |p|
  {
  }

  /** The directory a path lies in; "" is the working directory. */
  function ParentDir(p: Path): (parent: Path)
    ensures parent <= p
    ensures '/' !in p ==> parent == ""
  {
    match FindLast(p, '/')
    case None => ""
    case Some(i) => p[..i]
  }

  /** `ParentDir` undoes joining a name without `/` onto a directory. */
  lemma ParentOfJoin(dir: Path, name: string)
    requires '/' !in name
    ensures ParentDir(dir + "/" + name) == dir
  {
    var p := dir + "/" + name;
    assert p[|dir|] == '/';
    assert p[|dir| + 1..] == name;
    assert p[..|dir|] == dir;
  }

  predicate IsDirectory(s: State, p: Path) {
    p == "" || p in s.dirs
  }

  /** The state after an operation: the new one on success, the old one on failure. */
  function After(s: State, r: Result<State, IoError>): State {
    if r.Ok? then r.value else s
  }

  function ErrorOf(r: Result<State, IoError>): Option<IoError> {
    if r.Ok? then None else Some(r.error)
  }

  /**
   * `fs::create_dir_all(p)`: makes `p` and its missing ancestors; fails,
   * changing nothing, when one of them is a file.
   */
  function MakeDirs(s: State, p: Path): (r: Result<State, IoError>)
    ensures r.Ok? <==> Ancestors(p) !! s.files.Keys
    ensures r.Ok? ==> p in r.value.dirs && Ancestors(p) <= r.value.dirs
    ensures r.Ok? ==> s.dirs <= r.value.dirs && r.value.dirs - s.dirs <= Ancestors(p)
    ensures r.Ok? ==> r.value.files == s.files
    ensures s.Valid() ==> After(s, r).Valid()
  {
    if Ancestors(p) !! s.files.Keys then Ok(State(s.dirs + Ancestors(p), s.files))
    else Err(NotADirectory(p))
  }

  /** Why a file cannot be renamed or copied from `src` to `dst`, if it cannot. */
  function TransferError(s: State, src: Path, dst: Path): Option<IoError> {
    if src !in s.files then Some(NotFound(src))
    else if dst in s.dirs then Some(IsADirectory(dst))
    else if !IsDirectory(s, ParentDir(dst)) then Some(NotFound(dst))
    else None
  }

  /** `fs::rename(src, dst)` for a file: `dst` gets the contents, `src` is gone. */
  function MoveFile(s: State, src: Path, dst: Path): (r: Result<State, IoError>)
    ensures r.Ok? <==> TransferError(s, src, dst).None?
    ensures r.Ok? ==> r.value.dirs == s.dirs && dst in r.value.files && r.value.files[dst] == s.files[src]
    ensures r.Ok? && src != dst ==> src !in r.value.files
    ensures s.Valid() ==> After(s, r).Valid()
  {
    match TransferError(s, src, dst)
    case Some(e) => Err(e)
    case None => Ok(State(s.dirs, (s.files - {src})[dst := s.files[src]]))
  }

  /** `fs::copy(src, dst)`: `dst` gets the contents, `src` stays. */
  function CopyFile(s: State, src: Path, dst: Path): (r: Result<State, IoError>)
    ensures r.Ok? <==> TransferError(s, src, dst).None?
    ensures r.Ok? ==> r.value.dirs == s.dirs && dst in r.value.files && r.value.files[dst] == s.files[src]
    ensures r.Ok? ==> src in r.value.files && r.value.files[src] == s.files[src]
    ensures s.Valid() ==> After(s, r).Valid()
  {
    match TransferError(s, src, dst)
    case Some(e) => Err(e)
    case None => Ok(State(s.dirs, s.files[dst := s.files[src]]))
  }

  /** A rename touches no file other than its source and target. */
  lemma MoveFileKeepsOthers(s: State, src: Path, dst: Path, q: Path)
    requires MoveFile(s, src, dst).Ok? && q != src && q != dst
    ensures var t := MoveFile(s, src, dst).value;
            (q in t.files <==> q in s.files) && (q in s.files ==> t.files[q] == s.files[q])
  {
  }

  /** A copy touches no file other than its target. */
  lemma CopyFileKeepsOthers(s: State, src: Path, dst: Path, q: Path)
    requires CopyFile(s, src, dst).Ok? && q != dst
    ensures var t := CopyFile(s, src, dst).value;
            (q in t.files <==> q in s.files) && (q in s.files ==> t.files[q] == s.files[q])
  {
  }

  /** The filesystem `pool` changes in place, with a record of the calls made on it. */
  class Disk {
    var dirs: set<Path>
    var files: map<Path, Bytes>
    ghost var calls: seq<Call>

    function Snapshot(): State
      reads this
    {
      State(dirs, files)
    }

    constructor (initial: State)
      ensures Snapshot() == initial && calls == []
    {
      dirs, files := initial.dirs, initial.files;
      calls := [];
    }

    method CreateDirAll(p: Path) returns (err: Option<IoError>)
      modifies this
      ensures var r := MakeDirs(old(Snapshot()), p);
              Snapshot() == After(old(Snapshot()), r) && err == ErrorOf(r)
      ensures calls == old(calls) + [CreateDirAllCall(p)]
    {
      calls := calls + [CreateDirAllCall(p)];
      if Ancestors(p) !! files.Keys {
        dirs := dirs + Ancestors(p);
        err := None;
      } else {
        err := Some(NotADirectory(p));
      }
    }

    method Rename(src: Path, dst: Path) returns (err: Option<IoError>)
      modifies this
      ensures var r := MoveFile(old(Snapshot()), src, dst);
              Snapshot() == After(old(Snapshot()), r) && err == ErrorOf(r)
      ensures calls == old(calls) + [RenameCall(src, dst)]
    {
      calls := calls + [RenameCall(src, dst)];
      err := TransferError(Snapshot(), src, dst);
      if err.None? {
        files := (files - {src})[dst := files[src]];
      }
    }

    method Copy(src: Path, dst: Path) returns (err: Option<IoError>)
      modifies this
      ensures var r := CopyFile(old(Snapshot()), src, dst);
              Snapshot() == After(old(Snapshot()), r) && err == ErrorOf(r)
      ensures calls == old(calls) + [CopyCall(src, dst)]
    {
      calls := calls + [CopyCall(src, dst)];
      err := TransferError(Snapshot(), src, dst);
      if err.None? {
        files := files[dst := files[src]];
      }
    }
  }
}
