/**
 * `walk_debs` and `match_deb` (src/misc.rs:12-36): walk a directory tree
 * keeping directories and `.deb` files, and look a found file's package
 * name up in a list of wanted names.
 *
 * The tree is a value; the walk yields entries in pre-order, each entry
 * carrying its path as a list of components (a component is `None` when
 * it is not valid UTF-8).
 */
module DebLocator {
  import opened Wrappers
  import opened Text
  import opened PoolPath

  type Name = Option<string>

  /** A filesystem tree; `Broken` stands for an entry the walk reports as an `Err`. */
  datatype Tree =
    | File(name: Name)
    | Dir(name: Name, children: seq<Tree>)
    | Broken

  /** A `DirEntry`: its path from the walk's root, and whether it is a directory. */
  datatype Entry = Entry(path: seq<Name>, isDir: bool)

  /** An item of the walk: an entry, or the error for an entry that could not be read. */
  datatype Item = Found(entry: Entry) | WalkError

  /** `entry.file_name()`: the last component of the path. */
  function FileName(e: Entry): Name {
    if |e.path| == 0 then None else e.path[|e.path| - 1]
  }

  /** `is_deb`: every directory, and a file only when its name is text ending in ".deb". */
  predicate IsDeb(e: Entry) {
    e.isDir || (FileName(e).Some? && EndsWith(FileName(e).value, ".deb"))
  }

  function EntryOf(t: Tree, parent: seq<Name>): Entry
    requires !t.Broken?
  {
    Entry(parent + [t.name], t.Dir?)
  }

  // ----- `WalkDir` without a filter: every entry, in pre-order -----

  /** What `WalkDir::new` yields for the tree `t` under the path `parent`. */
  function Walk(t: Tree, parent: seq<Name>): seq<Item>
    decreases t
  {
    match t
    case Broken => [WalkError]
    case File(_) => [Found(EntryOf(t, parent))]
    case Dir(n, children) => [Found(EntryOf(t, parent))] + WalkAll(children, parent + [n])
  }

  function WalkAll(ts: seq<Tree>, parent: seq<Name>): seq<Item>
    decreases ts
  {
    if ts == [] then [] else Walk(ts[0], parent) + WalkAll(ts[1..], parent)
  }

  // ----- `filter_entry(is_deb)`: drops an entry that fails, and never descends into it -----

  function WalkFiltered(t: Tree, parent: seq<Name>): seq<Item>
    decreases t
  {
    match t
    case Broken => [WalkError]
    case File(_) => if IsDeb(EntryOf(t, parent)) then [Found(EntryOf(t, parent))] else []
    case Dir(n, children) =>
      if IsDeb(EntryOf(t, parent)) then [Found(EntryOf(t, parent))] + WalkFilteredAll(children, parent + [n])
      else []
  }

  function WalkFilteredAll(ts: seq<Tree>, parent: seq<Name>): seq<Item>
    decreases ts
  {
    if ts == [] then [] else WalkFiltered(ts[0], parent) + WalkFilteredAll(ts[1..], parent)
  }

  /** `flat_map(|e| e.ok())`: the entries, with the errors dropped. */
  function Entries(items: seq<Item>): (es: seq<Entry>)
    ensures forall e :: e in es <==> Found(e) in items
  {
    if items == [] then []
    else if items[0].Found? then [items[0].entry] + Entries(items[1..])
    else Entries(items[1..])
  }

  /** `walk_debs(root)`, for the tree `t` found at the path `parent`. */
  function WalkDebs(t: Tree, parent: seq<Name>): seq<Entry> {
    Entries(WalkFiltered(t, parent))
  }

  /** The entries of `es` that satisfy `is_deb`, in order. */
  function KeepDebs(es: seq<Entry>): (kept: seq<Entry>)
    ensures forall e :: e in kept <==> e in es && IsDeb(e)
  {
    if es == [] then []
    else if IsDeb(es[0]) then [es[0]] + KeepDebs(es[1..])
    else KeepDebs(es[1..])
  }

  /** `filter` by `is_deb` on walk items: errors pass, failing entries are dropped. */
  function KeepDebItems(items: seq<Item>): seq<Item> {
    if items == [] then []
    else if items[0].Found? && !IsDeb(items[0].entry) then KeepDebItems(items[1..])
    else [items[0]] + KeepDebItems(items[1..])
  }

  lemma {:induction false} KeepDebItemsAppend(xs: seq<Item>, ys: seq<Item>)
    ensures KeepDebItems(xs + ys) == KeepDebItems(xs) + KeepDebItems(ys)
    decreases |xs|
  {
    if xs == [] {
      assert xs + ys == ys;
    } else {
      assert (xs + ys)[0] == xs[0];
      assert (xs + ys)[1..] == xs[1..] + ys;
      KeepDebItemsAppend(xs[1..], ys);
    }
  }

  /** Filtering the items then dropping errors is filtering their entries. */
  lemma {:induction false} EntriesOfKept(items: seq<Item>)
    ensures Entries(KeepDebItems(items)) == KeepDebs(Entries(items))
    decreases |items|
  {
    if items != [] {
      EntriesOfKept(items[1..]);
      if !(items[0].Found? && !IsDeb(items[0].entry)) {
        assert ([items[0]] + KeepDebItems(items[1..]))[1..] == KeepDebItems(items[1..]);
      }
      if items[0].Found? {
        assert ([items[0].entry] + Entries(items[1..]))[1..] == Entries(items[1..]);
      }
    }
  }

  /**
   * Because `is_deb` accepts every directory, `filter_entry` never prunes a
   * subtree: the filtered walk is the plain walk with the failing entries
   * removed, in the same order.
   */
  lemma {:induction false} FilterNeverPrunes(t: Tree, parent: seq<Name>)
    ensures WalkFiltered(t, parent) == KeepDebItems(Walk(t, parent))
    decreases t
  {
    match t
    case Broken =>
      assert KeepDebItems([WalkError]) == [WalkError] + KeepDebItems([]);
    case File(_) =>
      var e := EntryOf(t, parent);
      assert KeepDebItems([Found(e)]) == (if IsDeb(e) then [Found(e)] else []) + KeepDebItems([]);
    case Dir(n, children) =>
      var e := EntryOf(t, parent);
      FilterNeverPrunesAll(children, parent + [n]);
      KeepDebItemsAppend([Found(e)], WalkAll(children, parent + [n]));
      assert KeepDebItems([Found(e)]) == [Found(e)] + KeepDebItems([]);
  }

  lemma {:induction false} FilterNeverPrunesAll(ts: seq<Tree>, parent: seq<Name>)
    ensures WalkFilteredAll(ts, parent) == KeepDebItems(WalkAll(ts, parent))
    decreases ts
  {
    if ts != [] {
      FilterNeverPrunes(ts[0], parent);
      FilterNeverPrunesAll(ts[1..], parent);
      KeepDebItemsAppend(Walk(ts[0], parent), WalkAll(ts[1..], parent));
    }
  }

  /**
   * `walk_debs` yields exactly the readable entries of the whole tree that
   * are directories or `.deb` files, in walk order.
   */
  lemma WalkDebsKeepsDebs(t: Tree, parent: seq<Name>)
    ensures WalkDebs(t, parent) == KeepDebs(Entries(Walk(t, parent)))
    ensures forall e :: e in WalkDebs(t, parent) <==> Found(e) in Walk(t, parent) && IsDeb(e)
  {
    FilterNeverPrunes(t, parent);
    EntriesOfKept(Walk(t, parent));
  }

  // ----- `match_deb` -----

  /** `packages.iter().position(|x| x == name)`. */
  function Position(packages: seq<string>, name: string): (r: Option<nat>)
    ensures r.None? <==> name !in packages
    ensures r.Some? ==> r.value < |packages| && packages[r.value] == name && name !in packages[..r.value]
  {
    if packages == [] then None
    else if packages[0] == name then Some(0)
    else
      match Position(packages[1..], name)
      case None => None
      case Some(i) =>
        assert packages[..i + 1] == [packages[0]] + packages[1..][..i];
        Some(i + 1)
  }

  /** `path.to_str()`: the components joined with `/`, when all are text. */
  function PathText(path: seq<Name>): (r: Option<string>)
    ensures r.Some? <==> forall i :: 0 <= i < |path| ==> path[i].Some?
  {
    if path == [] then Some("")
    else if path[0].None? then None
    else if |path| == 1 then Some(path[0].value)
    else
      match PathText(path[1..])
      case None => None
      case Some(rest) => Some(path[0].value + "/" + rest)
  }

  /**
   * `match_deb(entry, packages)`: `None` for a directory; for a file with a
   * text name, the full path and the index of the first wanted name equal
   * to the name's package; a panic when that name has no `_`.
   */
  function MatchDeb(e: Entry, packages: seq<string>): (r: Result<Option<(string, nat)>, Panic>)
    ensures e.isDir ==> r == Ok(None)
    ensures !e.isDir && FileName(e).Some? && '_' !in FileName(e).value ==> r == Err(MissingUnderscore)
    ensures r.Err? ==> r.error == MissingUnderscore
    ensures r.Err? <==> !e.isDir && FileName(e).Some? && '_' !in FileName(e).value
    ensures r.Ok? && r.value.Some? ==>
              var (path, i) := r.value.value;
              && !e.isDir && FileName(e).Some? && PathText(e.path) == Some(path)
              && var package := PackageOf(FileName(e).value);
                 i < |packages| && packages[i] == package && package !in packages[..i]
    ensures !e.isDir && FileName(e).Some? && '_' in FileName(e).value && PathText(e.path).Some? ==>
              r.Ok? && (r.value.Some? <==> PackageOf(FileName(e).value) in packages)
  {
    if e.isDir then Ok(None)
    else
      match FileName(e)
      case None => Ok(None)
      case Some(name) =>
        match FindFirst(name, '_')
        case None => Err(MissingUnderscore)
        case Some(i) =>
          match Position(packages, name[..i])
          case None => Ok(None)
          case Some(k) =>
            match PathText(e.path)
            case None => Ok(None)
            case Some(path) => Ok(Some((path, k)))
  }

  // ----- Examples -----

  /** The subdirectory of `WalkDebsExample`: `a` itself, then its `.deb` file. */
  lemma SubdirExample(r: seq<Name>, a: Name, b: string, c: string)
    requires EndsWith(b, ".deb") && !EndsWith(c, ".deb")
    ensures WalkFiltered(Dir(a, [File(Some(b)), File(Some(c))]), r)
              == [Found(Entry(r + [a], true)), Found(Entry(r + [a] + [Some(b)], false))]
  {
    var ra := r + [a];
    var fb, fc := File(Some(b)), File(Some(c));
    assert WalkFiltered(fb, ra) == [Found(Entry(ra + [Some(b)], false))];
    assert WalkFiltered(fc, ra) == [];
    assert [fb, fc][1..] == [fc] && [fc][1..] == [];
    assert WalkFilteredAll([fc], ra) == [];
    assert WalkFilteredAll([fb, fc], ra) == [Found(Entry(ra + [Some(b)], false))] + [];
  }

  /** The walk items of the tree in `WalkDebsExample`: every entry kept, no error. */
  lemma RootItemsExample(root: Name, a: Name, b: string, c: string, x: string)
    requires EndsWith(b, ".deb") && !EndsWith(c, ".deb") && EndsWith(x, ".deb")
    ensures var t := Dir(root, [Dir(a, [File(Some(b)), File(Some(c))]), File(Some(x))]);
            WalkFiltered(t, []) == [
              Found(Entry([root], true)),
              Found(Entry([root, a], true)),
              Found(Entry([root, a, Some(b)], false)),
              Found(Entry([root, Some(x)], false))]
  {
    var r, ra := [root], [root, a];
    var fx := File(Some(x));
    var d := Dir(a, [File(Some(b)), File(Some(c))]);
    var ed, eb, ex := Entry(ra, true), Entry(ra + [Some(b)], false), Entry(r + [Some(x)], false);
    SubdirExample(r, a, b, c);
    assert r + [a] == ra;
    assert WalkFiltered(fx, r) == [Found(ex)];
    assert [d, fx][1..] == [fx] && [fx][1..] == [];
    assert WalkFilteredAll([fx], r) == [Found(ex)] + [];
    assert WalkFilteredAll([d, fx], r) == [Found(ed), Found(eb)] + [Found(ex)];
    assert [] + [root] == r;
    assert ra + [Some(b)] == [root, a, Some(b)] && r + [Some(x)] == [root, Some(x)];
    assert IsDeb(EntryOf(Dir(root, [d, fx]), []));
    assert WalkFiltered(Dir(root, [d, fx]), []) == [Found(Entry(r, true))] + WalkFilteredAll([d, fx], r);
  }

  /**
   * A root holding directory `a` (with a `.deb` file `b` and another file
   * `c`) and a `.deb` file `x` yields the root, `a`, `a/b` and `x`, in that order.
   */
  lemma WalkDebsExample(root: Name, a: Name, b: string, c: string, x: string)
    requires EndsWith(b, ".deb") && !EndsWith(c, ".deb") && EndsWith(x, ".deb")
    ensures var t := Dir(root, [Dir(a, [File(Some(b)), File(Some(c))]), File(Some(x))]);
            WalkDebs(t, []) == [
              Entry([root], true),
              Entry([root, a], true),
              Entry([root, a, Some(b)], false),
              Entry([root, Some(x)], false)]
  {
    RootItemsExample(root, a, b, c, x);
    var es := [Entry([root], true), Entry([root, a], true),
               Entry([root, a, Some(b)], false), Entry([root, Some(x)], false)];
    EntriesOfFound(es);
    assert seq(|es|, i requires 0 <= i < |es| => Found(es[i]))
        == [Found(es[0]), Found(es[1]), Found(es[2]), Found(es[3])];
  }

  /** Dropping errors from a walk that had none gives back its entries. */
  lemma {:induction false} EntriesOfFound(es: seq<Entry>)
    ensures Entries(seq(|es|, i requires 0 <= i < |es| => Found(es[i]))) == es
  {
    var items := seq(|es|, i requires 0 <= i < |es| => Found(es[i]));
    if es != [] {
      assert items[1..] == seq(|es[1..]|, i requires 0 <= i < |es[1..]| => Found(es[1..][i]));
      EntriesOfFound(es[1..]);
      assert es == [es[0]] + es[1..];
    }
  }

  /** Against `["foo", "bar"]`, any file `bar_...` in a directory matches at index 1. */
  lemma MatchDebFoundExample(dir: string, rest: string)
    ensures MatchDeb(Entry([Some(dir), Some("bar_" + rest)], false), ["foo", "bar"])
              == Ok(Some((dir + "/bar_" + rest, 1)))
  {
    var name := "bar_" + rest;
    var e := Entry([Some(dir), Some(name)], false);
    PackageBeforeUnderscore("bar", rest);
    assert "bar" + "_" + rest == name && name[3] == '_';
    assert FileName(e) == Some(name);
    assert e.path[1..] == [Some(name)];
    assert PathText(e.path) == Some(dir + "/" + name);
    assert dir + "/" + name == dir + "/bar_" + rest;
    var r := MatchDeb(e, ["foo", "bar"]);
    assert ["foo", "bar"][..1] == ["foo"];
  }

  /** Against `["foo", "bar"]`, a file `baz_...` does not match. */
  lemma MatchDebMissingExample(dir: string, rest: string)
    ensures MatchDeb(Entry([Some(dir), Some("baz_" + rest)], false), ["foo", "bar"]) == Ok(None)
  {
    var name := "baz_" + rest;
    var e := Entry([Some(dir), Some(name)], false);
    PackageBeforeUnderscore("baz", rest);
    assert "baz" + "_" + rest == name && name[3] == '_';
    assert FileName(e) == Some(name);
    assert e.path[1..] == [Some(name)];
    assert PathText(e.path).Some?;
    assert "baz" !in ["foo", "bar"];
  }
}
