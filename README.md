# debrepbuild pool placement, in Dafny

This project models the core of `src/misc.rs` in debrepbuild, a tool that lays
out a Debian package archive on disk. The modelled parts are:

- **Pool path resolution** (`PoolPath`). A package file name such as
  `foo-dbgsym_1.0_amd64.deb` is turned into its pool directory
  `repo/pool/{archive}/main/{source | binary-{arch}}/{bucket}/{package}`.
  The bucket is the first byte of the package name.
  - Names ending in `dsc` or `tar.xz` are source artifacts.
  - Every other name is a binary artifact. Its package loses a trailing
    `-dbgsym`, and its architecture is the part of the file stem after the
    last `_`.
- **The placement loop** (`Pool`, over `FileSystem`). `pool` lists one
  directory. It passes over subdirectories and names that are not UTF-8.
  For every other file it creates the pool directory with `create_dir_all`,
  then moves it there with `fs::rename` (`mv_to_pool`) or copies it with
  `fs::copy` (`cp_to_pool`). It stops at the first I/O error or panic.
  - The filesystem is a `Disk` object (a set of directories and a map from
    file paths to contents) that the methods update in place. It keeps a
    ghost log of the calls made on it.
  - The `Pool` method loops over the listing on the disk. It is proved equal
    to `Placement`, a fold over the listing that returns the outcome, the
    final filesystem and the calls made.
- **Locating packages** (`DebLocator`). `walk_debs` walks a directory tree
  with a filter that keeps directories and `.deb` files. `match_deb` looks up
  a found file's package name (the text before its first `_`) in a list of
  wanted names and returns the file's path and the index of the match.
  - The tree is a value, and the walk is its pre-order.
- **The suffix dispatch of `extract`** (`Extract`): `.zip` goes to `unzip`,
  `.tar.gz` and `.tar.xz` go to `tar`, and anything else reaches
  `unimplemented!()`.

Panics in the source are results here, never preconditions:
- `&package[0..1]` on an empty package, or on one whose first character is
  wider than a byte;
- `&filestem[1..]` for a stem with no `_`, under the same two conditions;
- `expect("debian package lacks _ character")` in `match_deb`.

Strings are sequences of Unicode scalar values. Every search is for an ASCII
character (`_`, `.`, `/`), so Rust's byte offsets cut the string at the same
place as the character offsets used here. The two slices that end at byte 1
are the exception: they panic when the first character is not ASCII, and the
model says so (`Panic.SplitsCharacter`).

Edge cases where the code does something other than its most natural reading; the model follows the code:
- **Arch of a stem with no `_`.** The code computes `rfind('_').unwrap_or(0) + 1`,
  so the arch is the stem without its first character, not the whole stem.
- **Empty package name.** A name with no `_`, or one that starts with `_`,
  does not get an empty bucket. The slice `&package[0..1]` panics, and so
  does `pool` (`PoolPath.EmptyPackageRejected`).
- **Name with no `_` in `pool`.** There is no separate "malformed name" error
  there, only the slice panic above. `match_deb` does panic with its own
  message.
- **Source suffixes.** The test is a plain suffix test for `dsc` and
  `tar.xz`, with no leading dot, so a name like `foo_1_adsc` counts as
  source too.
- **Directories from `walk_debs`.** They are yielded as entries, not only
  descended into. `is_deb` accepts every directory, so `filter_entry` never
  prunes anything (`DebLocator.FilterNeverPrunes`).
- **Pool root.** It is the fixed relative path `repo/pool/`.

## Model

| member | source | states |
|---|---|---|
| Text.FindFirst | src/misc.rs:158 | `find('_')`: `None` exactly when the character is absent; otherwise an index holding it with no earlier occurrence |
| Text.FindLast | src/misc.rs:170 | `rfind('_')`: `None` exactly when the character is absent; otherwise an index holding it with no later occurrence |
| Text.EndsWith | src/misc.rs:160 | `ends_with`: the string is at least as long as the suffix and its last characters are the suffix (also the tests at src/misc.rs:17, 86-88 and 166) |
| PoolPath.FileStem | src/misc.rs:155 | `file_stem`: the whole name exactly when it has no `.` after its first character; otherwise the non-empty text before its last `.` |
| PoolPath.StemDropsExtension | src/misc.rs:155 | the stem of `front.ext` is `front` when `ext` has no `.` and `front` is not empty |
| PoolPath.PackageOf | src/misc.rs:158 | the package is the prefix before the first `_` (it holds no `_`, and `_` follows it), or "" when the name has no `_` |
| PoolPath.PackageBeforeUnderscore | src/misc.rs:158 | the package of `P_rest` is `P` when `P` has no `_` |
| PoolPath.StripDbgsym | src/misc.rs:166-168 | a package ending in `-dbgsym` loses exactly that suffix; any other is unchanged |
| PoolPath.IsSource | src/misc.rs:160 | `any` over `["dsc", "tar.xz"]`: the name ends in one of the two suffixes, with no leading dot |
| PoolPath.ArchOf | src/misc.rs:170 | with a `_`: the arch is the `_`-free text after the stem's last `_`; without one: the stem minus its first character, or a panic when the stem is empty or starts with a multi-byte character |
| PoolPath.ArchAfterLastUnderscore | src/misc.rs:170 | the arch of `front_arch` is `arch` when `arch` has no `_` |
| PoolPath.BucketOf | src/misc.rs:163 | `&package[0..1]` succeeds exactly when the package is non-empty and starts with an ASCII character, giving its one-character prefix; otherwise a bucket panic |
| PoolPath.ResolvePool | src/misc.rs:157-174 | the directory for one name: a source name gets `main/source/{bucket}/{package}`, any other name `main/binary-{arch}/{bucket}/{stripped package}`, with the arch computed before the bucket; it never raises `match_deb`'s panic, only the slice panics (the exact directories are in the lemmas below) |
| PoolPath.SourceGoesToSource | src/misc.rs:157-164 | a name ending in `dsc` or `tar.xz` resolves to `main/source/{p[0]}/{p}` with its unstripped package `p`, or to the bucket panic |
| PoolPath.BinaryGoesToBinary | src/misc.rs:165-173 | any other name whose stem is `front_arch` resolves to `main/binary-{arch}/{p[0]}/{p}` with `p` the dbgsym-stripped package, or to the bucket panic |
| PoolPath.EmptyPackageRejected | src/misc.rs:158-172 | a name whose package part is empty never resolves to a directory |
| PoolPath.BucketIsFirstByte | src/misc.rs:161-174 | every resolved directory ends in `/{p[0]}/{p}`, with `p` the package after stripping (binary branch only) and `p[0]` ASCII |
| PoolPath.DebDestination | src/misc.rs:157-174 | `P_V_A.deb` resolves to `repo/pool/{archive}/main/binary-A/{P[0]}/P` |
| PoolPath.BareBinaryDestination | src/misc.rs:155-174 | a binary name with no extension, `P_V_A`, has itself as stem and goes to `repo/pool/{archive}/main/binary-A/{P[0]}/P` |
| PoolPath.DbgsymDestination | src/misc.rs:165-173 | `P-dbgsym_V_A.deb` resolves to the binary directory of `P`, not of `P-dbgsym` |
| PoolPath.DscDestination | src/misc.rs:160-164 | `P_V.dsc` resolves to `repo/pool/{archive}/main/source/{P[0]}/P` |
| PoolPath.OrigTarDestination | src/misc.rs:160-164 | `P_V.orig.tar.xz` resolves to `repo/pool/{archive}/main/source/{P[0]}/P` |
| PoolPath.SourceKeepsDbgsym | src/misc.rs:160-168 | a source package `P-dbgsym` keeps its suffix, because only the binary branch strips it |
| FileSystem.MakeDirs | src/misc.rs:177 | `create_dir_all` succeeds exactly when no ancestor of the path is a file; it then adds the path and its ancestors, adds nothing else, and leaves the files alone |
| FileSystem.ParentOfJoin | src/misc.rs:178 | the parent of `dir.join(name)` is `dir` for a name without `/` |
| FileSystem.MoveFile | src/misc.rs:139 | `fs::rename` succeeds exactly when the source is a file, the target is not a directory and its parent exists; the directories stay, the target then holds the source's contents and the source is gone |
| FileSystem.MoveFileKeepsOthers | src/misc.rs:139 | a rename leaves every file other than its source and target as it was |
| FileSystem.CopyFile | src/misc.rs:143 | `fs::copy` succeeds under the same conditions; the directories stay, the target holds the source's contents and the source keeps its own |
| FileSystem.CopyFileKeepsOthers | src/misc.rs:143 | a copy leaves every file other than its target as it was |
| FileSystem.Disk.CreateDirAll | src/misc.rs:177 | the disk becomes what `MakeDirs` gives (unchanged on error), the error is reported, and the call is logged |
| FileSystem.Disk.Rename | src/misc.rs:139 | the disk becomes what `MoveFile` gives (unchanged on error), the error is reported, and the call is logged |
| FileSystem.Disk.Copy | src/misc.rs:143 | the disk becomes what `CopyFile` gives (unchanged on error), the error is reported, and the call is logged |
| Pool.PlaceEntry | src/misc.rs:148-179 | one iteration: an unreadable entry fails; a directory or non-UTF-8 name is passed over; otherwise resolve (or panic), `create_dir_all` (or fail), then the action (or fail), with the calls made and the filesystem left |
| Pool.Run | src/misc.rs:147-180 | the `for` loop with `?`: apply the step to each entry in turn, stop at the first outcome other than success, and concatenate the calls |
| Pool.PlaceAll | src/misc.rs:147-180 | the loop of `pool` over a listing: `Run` with `PlaceEntry` as the step |
| Pool.Placement | src/misc.rs:146-183 | the whole of `pool`: `read_dir` fails on a path that is a file or does not exist, otherwise the loop, ending in `Ok(())` when every entry succeeded |
| Pool.PlaceEntrySkips | src/misc.rs:147-157 | a directory or a non-UTF-8 name is passed over with no call and no change; an unreadable listing entry fails with no call |
| Pool.PlaceEntryCalls | src/misc.rs:154-178 | one entry makes at most two calls: first `create_dir_all` of the resolved directory, then, only if that succeeded, the action from `{dir}/{name}` to `{destination}/{name}`; an entry that is not skipped and succeeds makes both calls |
| Pool.PlaceEntryMovesOrCopies | src/misc.rs:176-178 | a placed file's contents reach `{destination}/{name}`; a copy keeps the original, a move removes it |
| Pool.PlaceEntrySucceeds | src/misc.rs:176-178 | a file whose name resolves is placed whenever its pool directory can be created and the target is not a directory |
| Pool.PlaceEntryKeepsValid | src/misc.rs:148-178 | one step never leaves a path that is both a file and a directory |
| Pool.PlaceAllAppend | src/misc.rs:147-180 | the loop over `xs + ys` is the loop over `xs`, then, only if that succeeded, over `ys` from the state `xs` left, with the call logs concatenated |
| Pool.FailureEndsPlacement | src/misc.rs:147-178 | once an entry fails or panics, the later entries are never touched, and nothing done before is rolled back |
| Pool.PlacementKeepsValid | src/misc.rs:146-183 | a whole run never leaves a path that is both a file and a directory |
| Pool.ActionsFollowTheirDirectory | src/misc.rs:176-178 | every rename or copy in a run acts on a listed UTF-8 name, is aimed at `{its pool directory}/{name}`, and comes right after `create_dir_all` of that directory |
| Pool.PlaceOne | src/misc.rs:148-179 | one iteration on the disk returns the outcome, state and calls of `PlaceEntry` |
| Pool.Pool | src/misc.rs:146-183 | the loop on the disk returns the outcome of `Placement` and leaves the disk and the call log as `Placement` says |
| Pool.MvToPool | src/misc.rs:138-140 | `pool` with `fs::rename` as the action |
| Pool.CpToPool | src/misc.rs:142-144 | `pool` with `fs::copy` as the action |
| DebLocator.Entries | src/misc.rs:21 | the `flat_map` over `ok()`: an entry is kept exactly when it was found without an error |
| DebLocator.IsDeb | src/misc.rs:13-19 | `is_deb`: true for every directory, and for a file exactly when its name is UTF-8 and ends in `.deb` |
| DebLocator.Walk | src/misc.rs:21 | `WalkDir::new(path).into_iter()`: the pre-order of the tree, an error item for each unreadable entry |
| DebLocator.WalkFiltered | src/misc.rs:21 | the walk with `filter_entry(is_deb)`: a rejected entry is dropped together with its subtree |
| DebLocator.WalkDebs | src/misc.rs:12-22 | `walk_debs`: the filtered walk with the error items dropped |
| DebLocator.KeepDebs | src/misc.rs:13-19 | exactly the entries that satisfy `is_deb` are kept |
| DebLocator.FilterNeverPrunes | src/misc.rs:13-21 | because `is_deb` accepts every directory, the filtered walk is the plain walk with failing entries removed, in the same order |
| DebLocator.WalkDebsKeepsDebs | src/misc.rs:12-22 | `walk_debs` yields exactly the readable entries of the whole tree that are directories or `.deb` files, in walk order |
| DebLocator.WalkDebsExample | src/misc.rs:12-22 | a root holding `a/b.deb`, `a/c` and `x.deb` yields the root, `a`, `a/b.deb` and `x.deb`, in that order |
| DebLocator.Position | src/misc.rs:33 | `position`: `None` exactly when the name is absent; otherwise the first index holding it |
| DebLocator.PathText | src/misc.rs:34 | `path.to_str()`: some text exactly when every component of the path is UTF-8 |
| DebLocator.MatchDeb | src/misc.rs:24-36 | a directory gives `None`; it panics exactly for a file whose UTF-8 name has no `_`, so a non-UTF-8 name or path gives `None`; a match gives the file's full path and the first index of its package; for a well-formed file with a UTF-8 path there is a match exactly when its package is wanted |
| DebLocator.MatchDebFoundExample | src/misc.rs:24-36 | `{dir}/bar_...` against `["foo", "bar"]` gives its path and index 1 |
| DebLocator.MatchDebMissingExample | src/misc.rs:24-36 | `{dir}/baz_...` against `["foo", "bar"]` gives `None` |
| Extract.ExtractorFor | src/misc.rs:83-96 | `unzip` exactly for names ending in `.zip`; `tar` exactly for other names ending in `.tar.gz` or `.tar.xz`; `unimplemented!()` otherwise, including a missing or non-UTF-8 name |
| Extract.TarballsGoToTar | src/misc.rs:88-89 | every `.tar.gz` and `.tar.xz` name goes to `tar` |
| Extract.ZipsGoToUnzip | src/misc.rs:86-87 | every `.zip` name goes to `unzip` |

## Left out

- The listing that `read_dir` yields is a parameter of `Pool`, in the order given. It is not derived from the disk, and its order (which the operating system decides) is not modelled.
- The walk in `walk_debs` is over a tree value in pre-order, as `WalkDir` yields it by default. Symbolic links, `follow_links` and the walker's lazy I/O are not modelled.
- `path.is_dir()` follows symbolic links. The model has no links, so it only checks whether the path is a directory.
- Paths are plain strings joined with `/`. Repeated or trailing separators and `.`/`..` components are not normalised. The `..` case of `Path::file_stem` is not modelled, because `read_dir` never lists it.
- I/O errors other than "not found", "not a directory" and "is a directory" (permissions, a full disk, crossing devices on rename, an interrupted copy) are not modelled.
- `fs::copy` of a file onto itself truncates it in Rust; the model copies the contents.
- `fs::rename` onto an existing directory is modelled as an error. A directory as the source cannot happen, because `pool` passes over directories first.
- The `eprintln!` logging in `pool` and `rsync` is output only and is left out.
- `unzip` and `untar` run external programs and replace the target directory. Only the choice between them in `extract` is modelled.
- `unlink` (a libc call), `rsync` (an external program) and `md5_digest` (the MD5 algorithm over a buffered reader) are left out as foreign calls. MD5 is not part of the placement logic.
- `read_to_string`, `read`, `write` and `initial_buffer_size` are copies of standard-library file helpers and are left out.
- `DebLocator.PathText` joins the components of a path relative to the walk root. An absolute root, and the `/` that Rust would not double after it, are not modelled.
