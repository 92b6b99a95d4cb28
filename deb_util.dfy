/**
 * ec2_build/bin/deb_util.py: the set of files that make up one Debian source
 * package in a build directory, derived from the name of its
 * `*_source.changes` file.
 *
 * The directory listing and the existence test are inputs: `listing` is what
 * `os.listdir(root)` returned and `existing` the set of paths for which
 * `os.path.exists` holds.
 */
module DebUtil {

  import opened Common
  import opened PyStr

  datatype DebError =
    | MultipleSourceDebs(root: string, changes: seq<string>)   // more than one *_source.changes file
    | MissingSeparator(sep: char)                              // `split(sep, 1)` unpacked into two names
    | MissingFile(path: string)                                // "Postcondition error: ... does not exist"

  const CHANGES_SUFFIX := "_source.changes"

  /** The names of the listing that end in "_source.changes", in listing order. */
  function ChangesFiles(listing: seq<string>): (r: seq<string>)
    ensures forall f :: f in r <==> f in listing && EndsWith(f, CHANGES_SUFFIX)
    ensures |r| <= |listing|
  {
    if listing == [] then []
    else if EndsWith(listing[0], CHANGES_SUFFIX) then [listing[0]] + ChangesFiles(listing[1..])
    else ChangesFiles(listing[1..])
  }

  function JoinAll(root: string, fs: seq<string>): (ps: seq<string>)
    ensures |ps| == |fs|
    ensures forall i :: 0 <= i < |fs| ==> ps[i] == PathJoin(root, fs[i])
  {
    if fs == [] then [] else [PathJoin(root, fs[0])] + JoinAll(root, fs[1..])
  }

  /** The first path that does not exist, if any. */
  function FirstMissing(paths: seq<string>, existing: set<string>): (m: Option<nat>)
    ensures m.None? <==> forall p :: p in paths ==> p in existing
    ensures m.Some? ==> m.value < |paths| && paths[m.value] !in existing
    ensures m.Some? ==> forall i :: 0 <= i < m.value ==> paths[i] in existing
  {
    if paths == [] then None
    else if paths[0] !in existing then Some(0)
    else
      match FirstMissing(paths[1..], existing)
      case None => None
      case Some(i) => Some(i + 1)
  }

  /**
   * The five file names belonging to the changes file `changes`: the base
   * name (every "_source.changes" removed) with the four source-package
   * extensions, then the upstream tarball `pkg_major.orig.tar.gz`, where pkg
   * precedes the first '_' of the base and major is the rest up to its first '-'.
   */
  function SourceDebNames(changes: string): (r: Result<seq<string>, DebError>)
    ensures var base := ReplaceAll(changes, CHANGES_SUFFIX, "");
      r.Failure? <==> '_' !in base || (SplitOnce(base, '_').Some? && '-' !in SplitOnce(base, '_').value.1)
    ensures r.Failure? ==> r.error.MissingSeparator?
    ensures r.Success? ==> |r.value| == 5
  {
    var base := ReplaceAll(changes, CHANGES_SUFFIX, "");
    var files := [base + CHANGES_SUFFIX, base + ".debian.tar.gz", base + ".diff.gz", base + ".dsc"];
    match SplitOnce(base, '_')
    case None => Failure(MissingSeparator('_'))
    case Some((pkgName, fullVers)) =>
      match SplitOnce(fullVers, '-')
      case None => Failure(MissingSeparator('-'))
      case Some((majorVers, _)) => Success(files + [pkgName + "_" + majorVers + ".orig.tar.gz"])
  }

  /** `find_source_deb_files(root)`. */
  function FindSourceDebFiles(root: string, listing: seq<string>, existing: set<string>): (r: Result<seq<string>, DebError>)
    ensures ChangesFiles(listing) == [] ==> r == Success([])
    ensures |ChangesFiles(listing)| > 1 ==> r == Failure(MultipleSourceDebs(root, ChangesFiles(listing)))
    ensures r.Success? && r.value != [] ==> |r.value| == 5 && forall p :: p in r.value ==> p in existing
    ensures r.Failure? && r.error.MissingFile? ==> r.error.path !in existing
  {
    var changes := ChangesFiles(listing);
    if |changes| == 0 then Success([])
    else if |changes| > 1 then Failure(MultipleSourceDebs(root, changes))
    else
      var names :- SourceDebNames(changes[0]);
      var files := JoinAll(root, names);
      match FirstMissing(files, existing)
      case Some(i) => Failure(MissingFile(files[i]))
      case None => Success(files)
  }

  /**
   * For a well-formed changes file `pkg_major-release_source.changes` the five
   * names are exactly the changes file itself, the Debian tarball, the diff,
   * the description and the upstream tarball.
   */
  lemma SourceDebNamesOf(pkg: string, major: string, release: string)
    requires '_' !in pkg && '-' !in major
    requires !Contains(pkg + "_" + major + "-" + release, CHANGES_SUFFIX)
    ensures var base := pkg + "_" + major + "-" + release;
      SourceDebNames(base + CHANGES_SUFFIX) ==
        Success([base + CHANGES_SUFFIX, base + ".debian.tar.gz", base + ".diff.gz", base + ".dsc",
                 pkg + "_" + major + ".orig.tar.gz"])
  {
    var fullVers := major + "-" + release;
    var base := pkg + "_" + major + "-" + release;
    var changes := base + CHANGES_SUFFIX;
    BaseOfChanges(base);
    assert ReplaceAll(changes, CHANGES_SUFFIX, "") == base;
    SplitBase(pkg, major, release);
    assert SplitOnce(base, '_') == Some((pkg, fullVers));
    assert SplitOnce(fullVers, '-') == Some((major, release));
    var files := [base + CHANGES_SUFFIX, base + ".debian.tar.gz", base + ".diff.gz", base + ".dsc"];
    assert SourceDebNames(changes) == Success(files + [pkg + "_" + major + ".orig.tar.gz"]);
    assert files + [pkg + "_" + major + ".orig.tar.gz"] ==
      [base + CHANGES_SUFFIX, base + ".debian.tar.gz", base + ".diff.gz", base + ".dsc", pkg + "_" + major + ".orig.tar.gz"];
  }

  lemma SplitBase(pkg: string, major: string, release: string)
    requires '_' !in pkg && '-' !in major
    ensures SplitOnce(pkg + "_" + major + "-" + release, '_') == Some((pkg, major + "-" + release))
    ensures SplitOnce(major + "-" + release, '-') == Some((major, release))
  {
    assert pkg + "_" + major + "-" + release == pkg + ['_'] + (major + "-" + release);
    SplitOnceAt(pkg, '_', major + "-" + release);
    SplitOnceAt(major, '-', release);
  }

  /** The base name of a changes file is its name without the suffix, when the suffix occurs only at the end. */
  lemma BaseOfChanges(base: string)
    requires !Contains(base, CHANGES_SUFFIX)
    ensures ReplaceAll(base + CHANGES_SUFFIX, CHANGES_SUFFIX, "") == base
  {
    assert CHANGES_SUFFIX[1..] == "source.changes";
    assert '_' !in CHANGES_SUFFIX[1..];
    RemoveSuffixOnce(base, CHANGES_SUFFIX);
  }

  /**
   * A directory holding exactly one well-formed changes file and all five
   * derived files yields their paths, the changes file first.
   */
  lemma FoundAll(root: string, listing: seq<string>, existing: set<string>, pkg: string, major: string, release: string)
    requires '_' !in pkg && '-' !in major
    requires !Contains(pkg + "_" + major + "-" + release, CHANGES_SUFFIX)
    requires ChangesFiles(listing) == [pkg + "_" + major + "-" + release + CHANGES_SUFFIX]
    requires var base := pkg + "_" + major + "-" + release;
      var names := [base + CHANGES_SUFFIX, base + ".debian.tar.gz", base + ".diff.gz", base + ".dsc",
                    pkg + "_" + major + ".orig.tar.gz"];
      forall f :: f in names ==> PathJoin(root, f) in existing
    ensures FindSourceDebFiles(root, listing, existing).Success?
    ensures var base := pkg + "_" + major + "-" + release;
      FindSourceDebFiles(root, listing, existing).value ==
        JoinAll(root, [base + CHANGES_SUFFIX, base + ".debian.tar.gz", base + ".diff.gz", base + ".dsc",
                       pkg + "_" + major + ".orig.tar.gz"])
  {
    SourceDebNamesOf(pkg, major, release);
    var base := pkg + "_" + major + "-" + release;
    var names := [base + CHANGES_SUFFIX, base + ".debian.tar.gz", base + ".diff.gz", base + ".dsc",
                  pkg + "_" + major + ".orig.tar.gz"];
    var files := JoinAll(root, names);
    assert FirstMissing(files, existing).None?;
  }
}
