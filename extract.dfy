/**
 * The suffix dispatch of `extract` (src/misc.rs:83-96). The tools it hands
 * over to (`unzip`, `tar`) are not part of this model; only the choice is.
 */
module Extract {
  import opened Wrappers
  import opened Text

  /** What `extract` does with an archive: run `unzip`, run `tar`, or hit `unimplemented!()`. */
  datatype Extractor = Unzip | Untar | Unimplemented

  /** The choice for a file name (`None` when the path has no file name or it is not text). */
  function ExtractorFor(name: Option<string>): (x: Extractor)
    ensures x == Unzip <==> name.Some? && EndsWith(name.value, ".zip")
    ensures x == Untar <==> name.Some? && !EndsWith(name.value, ".zip")
                            && (EndsWith(name.value, ".tar.gz") || EndsWith(name.value, ".tar.xz"))
  {
    match name
    case None => Unimplemented
    case Some(filename) =>
      if EndsWith(filename, ".zip") then Unzip
      else if EndsWith(filename, ".tar.gz") || EndsWith(filename, ".tar.xz") then Untar
      else Unimplemented
  }

  /** The three suffixes are told apart: a `.tar.gz` or `.tar.xz` name never goes to `unzip`. */
  lemma TarballsGoToTar(stem: string, ext: string)
    requires ext == ".tar.gz" || ext == ".tar.xz"
    ensures ExtractorFor(Some(stem + ext)) == Untar
  {
    var name := stem + ext;
    EndsWithAppended(stem, ext);
    assert name[|name| - 1] != 'p';
  }

  /** A `.zip` name goes to `unzip`. */
  lemma ZipsGoToUnzip(stem: string)
    ensures ExtractorFor(Some(stem + ".zip")) == Unzip
  {
    EndsWithAppended(stem, ".zip");
  }
}
