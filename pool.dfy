/**
 * `pool`, `mv_to_pool` and `cp_to_pool` (src/misc.rs:138-183): scan one
 * directory's entries and move or copy each file into the pool directory
 * its name resolves to, stopping at the first error or panic.
 *
 * `Placement` is the specification: a fold over the listed entries that
 * returns the outcome, the final filesystem and the calls made on it. The
 * method `Pool` runs the loop on a `Disk` and is proved to match it.
 */
module Pool {
  import opened Wrappers
  import opened Text
  import opened PoolPath
  import opened FileSystem

  /** The action `pool` is given: `fs::rename` (mv_to_pool) or `fs::copy` (cp_to_pool). */
  datatype Action = Move | Copy

  /**
   * One item `read_dir` yields, in the order it yields them: an `Err`, an
   * entry whose name is not valid UTF-8, or an entry with a text name.
   */
  datatype Listed = Unreadable | NonText | Named(name: string)

  /** How `pool` ends: `Ok(())`, an `io::Error`, or a panic in the name handling. */
  datatype Outcome = Done | Failed(error: IoError) | Panicked(panic: Panic)

  /** An outcome with the filesystem it leaves and the calls made to reach it. */
  datatype Progress = Progress(outcome: Outcome, fs: State, calls: seq<Call>)

  /** `path.join(name)`. */
  function Join(dir: Path, name: string): Path {
    dir + "/" + name
  }

  function Perform(action: Action, s: State, src: Path, dst: Path): Result<State, IoError> {
    match action
    case Move => MoveFile(s, src, dst)
    case Copy => CopyFile(s, src, dst)
  }

  function ActionCall(action: Action, src: Path, dst: Path): Call {
    match action
    case Move => RenameCall(src, dst)
    case Copy => CopyCall(src, dst)
  }

  /** The entries `pool` passes over without a call: directories and names that are not text. */
  predicate Skipped(s: State, dir: Path, e: Listed) {
    e.NonText? || (e.Named? && Join(dir, e.name) in s.dirs)
  }

  /** What one iteration of the loop in `pool` does to the entry `e`. */
  function PlaceEntry(s: State, dir: Path, archive: string, action: Action, e: Listed): Progress
  {
    match e
    case Unreadable => Progress(Failed(EntryUnreadable), s, [])
    case NonText => Progress(Done, s, [])
    case Named(name) =>
      var src := Join(dir, name);
      if src in s.dirs then Progress(Done, s, [])
      else
        match ResolvePool(name, archive)
        case Err(panic) => Progress(Panicked(panic), s, [])
        case Ok(dest) =>
          match MakeDirs(s, dest)
          case Err(error) => Progress(Failed(error), s, [CreateDirAllCall(dest)])
          case Ok(made) =>
            var dst := Join(dest, name);
            var calls := [CreateDirAllCall(dest), ActionCall(action, src, dst)];
            match Perform(action, made, src, dst)
            case Err(error) => Progress(Failed(error), made, calls)
            case Ok(placed) => Progress(Done, placed, calls)
  }

  /** Directories and non-text names are passed over with no call; an unreadable entry fails. */
  lemma PlaceEntrySkips(s: State, dir: Path, archive: string, action: Action, e: Listed)
    ensures Skipped(s, dir, e) ==> PlaceEntry(s, dir, archive, action, e) == Progress(Done, s, [])
    ensures e.Unreadable? ==> PlaceEntry(s, dir, archive, action, e) == Progress(Failed(EntryUnreadable), s, [])
  {
  }

  /**
   * Any other entry is first resolved, then its directory is created, and
   * only once that succeeded is the action called, exactly once, on
   * `{dir}/{name}` and `{destination}/{name}` with the untouched name.
   */
  lemma PlaceEntryCalls(s: State, dir: Path, archive: string, action: Action, e: Listed)
    ensures var p := PlaceEntry(s, dir, archive, action, e);
            && |p.calls| <= 2
            && (p.calls != [] ==> e.Named? && ResolvePool(e.name, archive).Ok?
                                  && p.calls[0] == CreateDirAllCall(ResolvePool(e.name, archive).value))
            && (|p.calls| == 2 ==>
                  var dest := ResolvePool(e.name, archive).value;
                  MakeDirs(s, dest).Ok? && dest in MakeDirs(s, dest).value.dirs
                  && p.calls[1] == ActionCall(action, Join(dir, e.name), Join(dest, e.name)))
            && (p.outcome.Done? && !Skipped(s, dir, e) ==> |p.calls| == 2)
  {
  }

  /** A placed file's contents reach the pool; a copy keeps the original, a move removes it. */
  lemma PlaceEntryMovesOrCopies(s: State, dir: Path, archive: string, action: Action, name: string)
    requires !Skipped(s, dir, Named(name))
    requires PlaceEntry(s, dir, archive, action, Named(name)).outcome.Done?
    ensures var p := PlaceEntry(s, dir, archive, action, Named(name));
            var src := Join(dir, name);
            var dst := Join(ResolvePool(name, archive).value, name);
            ResolvePool(name, archive).Ok?
            && src in s.files && dst in p.fs.files && p.fs.files[dst] == s.files[src]
            && (action == Copy ==> src in p.fs.files && p.fs.files[src] == s.files[src])
            && (action == Move && src != dst ==> src !in p.fs.files)
  {
  }

  /**
   * The other direction: a text-named file whose name resolves is placed
   * whenever the pool directory can be created and `{destination}/{name}` is
   * not already a directory, since `create_dir_all` made the parent the action needs.
   */
  lemma PlaceEntrySucceeds(s: State, dir: Path, archive: string, action: Action, name: string)
    requires s.Valid() && '/' !in name && Join(dir, name) in s.files
    requires ResolvePool(name, archive).Ok?
    requires var dest := ResolvePool(name, archive).value;
             Ancestors(dest) !! s.files.Keys && Join(dest, name) !in s.dirs
    ensures PlaceEntry(s, dir, archive, action, Named(name)).outcome == Done
  {
    var dest := ResolvePool(name, archive).value;
    var src, dst := Join(dir, name), Join(dest, name);
    var made := MakeDirs(s, dest).value;
    assert src !in s.dirs;
    assert dst !in made.dirs by {
      if dst in Ancestors(dest) {
        AncestorNoLonger(dest, dst);
      }
    }
    ParentOfJoin(dest, name);
    assert TransferError(made, src, dst).None?;
  }

  lemma PlaceEntryKeepsValid(s: State, dir: Path, archive: string, action: Action, e: Listed)
    requires s.Valid()
    ensures PlaceEntry(s, dir, archive, action, e).fs.Valid()
  {
  }

  /** Continue a finished prefix with what follows it. */
  function Then(first: Progress, rest: Progress): Progress {
    Progress(rest.outcome, rest.fs, first.calls + rest.calls)
  }

  /** The per-entry step of the loop, as a value. */
  function Step(dir: Path, archive: string, action: Action): (State, Listed) -> Progress {
    (s: State, e: Listed) => PlaceEntry(s, dir, archive, action, e)
  }

  /** A loop that applies `step` to each entry in turn and stops at the first outcome other than `Done`. */
  function Run(step: (State, Listed) -> Progress, s: State, entries: seq<Listed>): Progress
    decreases |entries|
  {
    if entries == [] then Progress(Done, s, [])
    else
      var first := step(s, entries[0]);
      if !first.outcome.Done? then first
      else Then(first, Run(step, first.fs, entries[1..]))
  }

  /** The loop of `pool` over `entries`, from the filesystem `s`. */
  function PlaceAll(s: State, dir: Path, archive: string, action: Action, entries: seq<Listed>): Progress {
    Run(Step(dir, archive, action), s, entries)
  }

  /** `pool` as a whole: `read_dir` fails on a path that is not a directory. */
  function Placement(s: State, dir: Path, archive: string, action: Action, entries: seq<Listed>): Progress {
    if dir in s.files then Progress(Failed(NotADirectory(dir)), s, [])
    else if dir !in s.dirs then Progress(Failed(NotFound(dir)), s, [])
    else PlaceAll(s, dir, archive, action, entries)
  }

  /**
   * Running over `xs + ys` is running over `xs`, then, only if that
   * succeeded, over `ys` from where `xs` left the filesystem: nothing is
   * rolled back and nothing after a failure is attempted.
   */
  lemma {:induction false} RunAppend(step: (State, Listed) -> Progress, s: State, xs: seq<Listed>, ys: seq<Listed>)
    ensures var p := Run(step, s, xs);
            Run(step, s, xs + ys) == if p.outcome.Done? then Then(p, Run(step, p.fs, ys)) else p
    decreases |xs|
  {
    if xs == [] {
      assert xs + ys == ys;
    } else {
      assert (xs + ys)[0] == xs[0];
      assert (xs + ys)[1..] == xs[1..] + ys;
      var first := step(s, xs[0]);
      if first.outcome.Done? {
        RunAppend(step, first.fs, xs[1..], ys);
        var mid := Run(step, first.fs, xs[1..]);
        if mid.outcome.Done? {
          var last := Run(step, mid.fs, ys);
          assert first.calls + (mid.calls + last.calls) == (first.calls + mid.calls) + last.calls;
        }
      }
    }
  }

  /** `RunAppend` for the loop of `pool`. */
  lemma PlaceAllAppend(s: State, dir: Path, archive: string, action: Action, xs: seq<Listed>, ys: seq<Listed>)
    ensures var p := PlaceAll(s, dir, archive, action, xs);
            PlaceAll(s, dir, archive, action, xs + ys) ==
              if p.outcome.Done? then Then(p, PlaceAll(p.fs, dir, archive, action, ys)) else p
  {
    RunAppend(Step(dir, archive, action), s, xs, ys);
  }

  /** Over one entry, the loop is that entry's step. */
  lemma PlaceAllOne(s: State, dir: Path, archive: string, action: Action, e: Listed)
    ensures PlaceAll(s, dir, archive, action, [e]) == PlaceEntry(s, dir, archive, action, e)
  {
    var first := PlaceEntry(s, dir, archive, action, e);
    var step := Step(dir, archive, action);
    assert step(s, e) == first;
    if first.outcome.Done? {
      assert [e][1..] == [];
      assert Run(step, first.fs, []) == Progress(Done, first.fs, []);
      assert Run(step, s, [e]) == Then(first, Run(step, first.fs, [e][1..]));
      assert first.calls + [] == first.calls;
    }
  }

  /** One more turn of the loop, from a prefix that succeeded; a failure there ends the whole loop. */
  lemma PlaceAllStep(s: State, dir: Path, archive: string, action: Action, entries: seq<Listed>, i: nat)
    requires i < |entries| && PlaceAll(s, dir, archive, action, entries[..i]).outcome.Done?
    ensures var p := PlaceAll(s, dir, archive, action, entries[..i]);
            var q := PlaceEntry(p.fs, dir, archive, action, entries[i]);
            && PlaceAll(s, dir, archive, action, entries[..i + 1]) == Then(p, q)
            && (!q.outcome.Done? ==> PlaceAll(s, dir, archive, action, entries) == Then(p, q))
  {
    var p := PlaceAll(s, dir, archive, action, entries[..i]);
    assert entries[..i + 1] == entries[..i] + [entries[i]];
    PlaceAllAppend(s, dir, archive, action, entries[..i], [entries[i]]);
    PlaceAllOne(p.fs, dir, archive, action, entries[i]);
    var q := PlaceEntry(p.fs, dir, archive, action, entries[i]);
    if !q.outcome.Done? {
      assert entries[..i + 1] + entries[i + 1..] == entries;
      FailureEndsPlacement(s, dir, archive, action, entries[..i + 1], entries[i + 1..]);
    }
  }

  /** Fail fast: once an entry fails or panics, the entries after it are never touched. */
  lemma FailureEndsPlacement(s: State, dir: Path, archive: string, action: Action,
                             xs: seq<Listed>, ys: seq<Listed>)
    requires !PlaceAll(s, dir, archive, action, xs).outcome.Done?
    ensures PlaceAll(s, dir, archive, action, xs + ys) == PlaceAll(s, dir, archive, action, xs)
  {
    PlaceAllAppend(s, dir, archive, action, xs, ys);
  }

  /** Placement never leaves a path that is both a file and a directory. */
  lemma {:induction false} PlacementKeepsValid(s: State, dir: Path, archive: string, action: Action,
                                               entries: seq<Listed>)
    requires s.Valid()
    ensures Placement(s, dir, archive, action, entries).fs.Valid()
  {
    PlaceAllKeepsValid(s, dir, archive, action, entries);
  }

  lemma {:induction false} PlaceAllKeepsValid(s: State, dir: Path, archive: string, action: Action,
                                              entries: seq<Listed>)
    requires s.Valid()
    ensures PlaceAll(s, dir, archive, action, entries).fs.Valid()
    decreases |entries|
  {
    if entries != [] {
      var first := PlaceEntry(s, dir, archive, action, entries[0]);
      PlaceEntryKeepsValid(s, dir, archive, action, entries[0]);
      if first.outcome.Done? {
        PlaceAllKeepsValid(first.fs, dir, archive, action, entries[1..]);
      }
    }
  }

  /** The entry of `entries` that a rename or copy call belongs to. */
  ghost predicate ActsOnEntry(calls: seq<Call>, k: nat, dir: Path, archive: string, action: Action,
                              entries: seq<Listed>)
    requires k < |calls|
  {
    exists n :: Named(n) in entries && ResolvePool(n, archive).Ok?
      && calls[k] == ActionCall(action, Join(dir, n), Join(ResolvePool(n, archive).value, n))
      && 0 < k && calls[k - 1] == CreateDirAllCall(ResolvePool(n, archive).value)
  }

  /**
   * Every call other than `create_dir_all` is the chosen action, applied to
   * a listed text-named entry and aimed at `{its pool directory}/{its name}`,
   * right after `create_dir_all` of that directory.
   */
  lemma {:induction false} ActionsFollowTheirDirectory(s: State, dir: Path, archive: string, action: Action,
                                                       entries: seq<Listed>)
    ensures var calls := PlaceAll(s, dir, archive, action, entries).calls;
            forall k :: 0 <= k < |calls| && !calls[k].CreateDirAllCall? ==>
              ActsOnEntry(calls, k, dir, archive, action, entries)
    decreases |entries|
  {
    if entries != [] {
      var first := PlaceEntry(s, dir, archive, action, entries[0]);
      FirstEntryActs(s, dir, archive, action, entries);
      if first.outcome.Done? {
        var rest := PlaceAll(first.fs, dir, archive, action, entries[1..]);
        ActionsFollowTheirDirectory(first.fs, dir, archive, action, entries[1..]);
        ActsOnEntryExtends(first.calls, rest.calls, dir, archive, action, entries);
      }
    }
  }

  /** The calls of the first entry act on that entry. */
  lemma FirstEntryActs(s: State, dir: Path, archive: string, action: Action, entries: seq<Listed>)
    requires entries != []
    ensures var calls := PlaceEntry(s, dir, archive, action, entries[0]).calls;
            forall k :: 0 <= k < |calls| && !calls[k].CreateDirAllCall? ==>
              ActsOnEntry(calls, k, dir, archive, action, entries)
  {
    PlaceEntryCalls(s, dir, archive, action, entries[0]);
    var calls := PlaceEntry(s, dir, archive, action, entries[0]).calls;
    forall k | 0 <= k < |calls| && !calls[k].CreateDirAllCall?
      ensures ActsOnEntry(calls, k, dir, archive, action, entries)
    {
      assert Named(entries[0].name) in entries;
    }
  }

  /** Calls that act on the first entry, followed by calls that act on the later ones, act on the entries. */
  lemma ActsOnEntryExtends(a: seq<Call>, b: seq<Call>, dir: Path, archive: string, action: Action,
                           entries: seq<Listed>)
    requires entries != []
    requires forall k :: 0 <= k < |a| && !a[k].CreateDirAllCall? ==> ActsOnEntry(a, k, dir, archive, action, entries)
    requires forall j :: 0 <= j < |b| && !b[j].CreateDirAllCall? ==> ActsOnEntry(b, j, dir, archive, action, entries[1..])
    ensures forall k :: 0 <= k < |a + b| && !(a + b)[k].CreateDirAllCall? ==>
              ActsOnEntry(a + b, k, dir, archive, action, entries)
  {
    var calls := a + b;
    forall k | 0 <= k < |calls| && !calls[k].CreateDirAllCall?
      ensures ActsOnEntry(calls, k, dir, archive, action, entries)
    {
      if k < |a| {
        assert ActsOnEntry(a, k, dir, archive, action, entries);
        var n :| Named(n) in entries && ResolvePool(n, archive).Ok?
          && a[k] == ActionCall(action, Join(dir, n), Join(ResolvePool(n, archive).value, n))
          && 0 < k && a[k - 1] == CreateDirAllCall(ResolvePool(n, archive).value);
        assert calls[k] == a[k] && calls[k - 1] == a[k - 1];
      } else {
        var j := k - |a|;
        assert calls[k] == b[j];
        assert ActsOnEntry(b, j, dir, archive, action, entries[1..]);
        var n :| Named(n) in entries[1..] && ResolvePool(n, archive).Ok?
          && b[j] == ActionCall(action, Join(dir, n), Join(ResolvePool(n, archive).value, n))
          && 0 < j && b[j - 1] == CreateDirAllCall(ResolvePool(n, archive).value);
        assert calls[k - 1] == b[j - 1];
        assert Named(n) in entries;
      }
    }
  }

  lemma AppendAssociates(a: seq<Call>, b: seq<Call>, c: seq<Call>)
    ensures (a + b) + c == a + (b + c)
  {
  }

  // ----- The imperative loop -----

  /** One iteration of the loop in `pool` (src/misc.rs:148-179), on the disk. */
  method PlaceOne(disk: Disk, dir: Path, archive: string, action: Action, e: Listed) returns (outcome: Outcome)
    modifies disk
    ensures var p := PlaceEntry(old(disk.Snapshot()), dir, archive, action, e);
            outcome == p.outcome && disk.Snapshot() == p.fs && disk.calls == old(disk.calls) + p.calls
  {
    match e {
      case Unreadable =>
        return Failed(EntryUnreadable);
      case NonText =>
        return Done;
      case Named(name) =>
        var src := Join(dir, name);
        if src in disk.dirs {
          return Done;
        }
        var dest := ResolvePool(name, archive);
        if dest.Err? {
          return Panicked(dest.error);
        }
        var err := disk.CreateDirAll(dest.value);
        if err.Some? {
          return Failed(err.value);
        }
        var dst := Join(dest.value, name);
        if action == Move {
          err := disk.Rename(src, dst);
        } else {
          err := disk.Copy(src, dst);
        }
        AppendAssociates(old(disk.calls), [CreateDirAllCall(dest.value)], [ActionCall(action, src, dst)]);
        if err.Some? {
          return Failed(err.value);
        }
        return Done;
    }
  }

  /** `pool(path, archive, action)` over the entries `read_dir` lists, in their order. */
  method Pool(disk: Disk, dir: Path, archive: string, action: Action, entries: seq<Listed>)
    returns (outcome: Outcome)
    modifies disk
    ensures var p := Placement(old(disk.Snapshot()), dir, archive, action, entries);
            outcome == p.outcome && disk.Snapshot() == p.fs && disk.calls == old(disk.calls) + p.calls
  {
    if dir in disk.files {
      return Failed(NotADirectory(dir));
    }
    if dir !in disk.dirs {
      return Failed(NotFound(dir));
    }
    ghost var s0 := disk.Snapshot();
    ghost var calls0 := disk.calls;
    ghost var p := PlaceAll(s0, dir, archive, action, []);
    assert entries[..0] == [];
    var i := 0;
    while i < |entries|
      invariant 0 <= i <= |entries|
      invariant p == PlaceAll(s0, dir, archive, action, entries[..i])
      invariant p.outcome == Done && disk.Snapshot() == p.fs && disk.calls == calls0 + p.calls
    {
      outcome := PlaceOne(disk, dir, archive, action, entries[i]);
      PlaceAllStep(s0, dir, archive, action, entries, i);
      ghost var q := PlaceEntry(p.fs, dir, archive, action, entries[i]);
      AppendAssociates(calls0, p.calls, q.calls);
      p := Then(p, q);
      if !outcome.Done? {
        return;
      }
      i := i + 1;
    }
    assert entries[..i] == entries;
    return Done;
  }

  /** `mv_to_pool`: `pool` with `fs::rename` as the action. */
  method MvToPool(disk: Disk, dir: Path, archive: string, entries: seq<Listed>) returns (outcome: Outcome)
    modifies disk
    ensures var p := Placement(old(disk.Snapshot()), dir, archive, Move, entries);
            outcome == p.outcome && disk.Snapshot() == p.fs && disk.calls == old(disk.calls) + p.calls
  {
    outcome := Pool(disk, dir, archive, Move, entries);
  }

  /** `cp_to_pool`: `pool` with `fs::copy` as the action. */
  method CpToPool(disk: Disk, dir: Path, archive: string, entries: seq<Listed>) returns (outcome: Outcome)
    modifies disk
    ensures var p := Placement(old(disk.Snapshot()), dir, archive, Copy, entries);
            outcome == p.outcome && disk.Snapshot() == p.fs && disk.calls == old(disk.calls) + p.calls
  {
    outcome := Pool(disk, dir, archive, Copy, entries);
  }
}
