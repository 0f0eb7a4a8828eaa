/** What loading the class files of one root, and of all roots, produces. */
module Loading {
  import opened Outcomes
  import opened FileTree
  import opened Names
  import Strings

  /** A class loader, reduced to the outcome of `loadClass` for each name. */
  type Loader = string -> LoadOutcome

  /** The names of the given class files whose loading throws ClassFormatError: exactly the
      derived names whose outcome is a format error. */
  function Unloadables(load: Loader, rootPath: string, files: set<string>): (broken: set<string>)
    ensures forall n :: n in broken ==> load(n) == FormatError
    ensures forall n :: n in broken ==> exists f :: f in files && ReplacedName(rootPath, f) == n
    ensures forall f :: f in files && load(ReplacedName(rootPath, f)) == FormatError ==>
      ReplacedName(rootPath, f) in broken
  {
    set f | f in files && load(ReplacedName(rootPath, f)) == FormatError :: ReplacedName(rootPath, f)
  }

  /** Loading some file throws something `tryLoad` does not catch. */
  predicate Aborts(load: Loader, rootPath: string, files: set<string>) {
    exists f :: f in files && load(ReplacedName(rootPath, f)).Thrown?
  }

  /** `e` is what loading one of the files throws. */
  predicate AbortsWith(load: Loader, rootPath: string, files: set<string>, e: ScanError) {
    e.LoadFailed? && load(e.className) == Thrown(e.error) &&
    exists f :: f in files && ReplacedName(rootPath, f) == e.className
  }

  /** The class files the walk finds under a root. */
  function RootClassFiles(root: Root): Result<set<string>, ScanError> {
    ClassFilesOf(root.path, root.listing)
  }

  /** Every class file the walk finds under a root lies at `rel + ".class"` below it. The
      intended name of its class is `rel` with '.' for each separator, and that is also the name
      the scan asks the loader for as long as `rel` contains neither the base path nor ".class". */
  lemma DiscoveredClassName(root: Root, f: string) returns (rel: string)
    requires RootClassFiles(root).Ok? && f in RootClassFiles(root).value
    ensures f == BasePath(root.path) + rel + ClassSuffix
    ensures ClassName(root.path, f) == Strings.DotSeparators(rel)
    ensures !Strings.Contains(rel, BasePath(root.path)) && !Strings.Contains(rel, ClassSuffix) ==>
      ReplacedName(root.path, f) == Strings.DotSeparators(rel)
  {
    var contents := root.listing.value;
    ClassFilesInExact(root.path, contents, |contents|);
    assert contents[..|contents|] == contents;
    var i :| 0 <= i < |contents| && ClassFileUnder(root.path, contents[i], f);
    rel := ClassFileShape(root.path, contents[i], f);
    ClassNameOfRelative(root.path, rel);
    if !Strings.Contains(rel, BasePath(root.path)) && !Strings.Contains(rel, ClassSuffix) {
      ReplacedNameOfRelative(root.path, rel);
    }
  }

  /** The broken classes of one root loaded through `load`, or `None` when its scan aborts. */
  function RootFailures(load: Loader, root: Root): (r: Option<set<string>>)
    ensures RootClassFiles(root).Err? ==> r == None
    ensures r.Some? ==> forall n :: n in r.value ==> load(n) == FormatError
  {
    match RootClassFiles(root)
    case Err(_) => None
    case Ok(files) =>
      if Aborts(load, root.path, files) then None else Some(Unloadables(load, root.path, files))
  }

  /** `e` is an exception the scan of this root can end with. */
  predicate RootAbortsWith(load: Loader, root: Root, e: ScanError) {
    match RootClassFiles(root)
    case Err(walkError) => e == walkError
    case Ok(files) => AbortsWith(load, root.path, files, e)
  }

  /** Loading `n` throws ClassFormatError under the loader of some root. */
  predicate FormatErrorSomewhere(loaderFor: string -> Loader, roots: seq<Root>, n: string) {
    exists i :: 0 <= i < |roots| && loaderFor(roots[i].path)(n) == FormatError
  }

  /** The failures of every root, each loaded through the loader made for it, pooled; `None`
      when the scan of some root aborts. */
  function AllFailures(loaderFor: string -> Loader, roots: seq<Root>): (r: Option<set<string>>)
    ensures r.Some? ==> forall n :: n in r.value ==> FormatErrorSomewhere(loaderFor, roots, n)
    decreases |roots|
  {
    if roots == [] then Some({})
    else
      var last := roots[|roots| - 1];
      match (AllFailures(loaderFor, roots[..|roots| - 1]), RootFailures(loaderFor(last.path), last))
      case (Some(earlier), Some(here)) => Some(earlier + here)
      case _ => None
  }

  /** The scan of the roots ends with `e` at root `i`: the roots before it complete and the
      scan of root `i`, through its own loader, can end with `e`. */
  predicate AbortsAt(loaderFor: string -> Loader, roots: seq<Root>, i: int, e: ScanError) {
    0 <= i < |roots| && AllFailures(loaderFor, roots[..i]).Some? &&
    RootAbortsWith(loaderFor(roots[i].path), roots[i], e)
  }

  /** A root whose scan can end with an exception has no failure set. */
  lemma RootAbortIsFatal(load: Loader, root: Root, e: ScanError)
    requires RootAbortsWith(load, root, e)
    ensures RootFailures(load, root) == None
  {
    if RootClassFiles(root).Ok? {
      var f :| f in RootClassFiles(root).value && ReplacedName(root.path, f) == e.className;
    }
  }

  /** The scan of all roots completes exactly when the scan of each root does. */
  lemma {:induction false} AllFailuresCompletes(loaderFor: string -> Loader, roots: seq<Root>)
    ensures AllFailures(loaderFor, roots).Some? <==> EveryRootCompletes(loaderFor, roots)
    decreases |roots|
  {
    if roots != [] {
      AllFailuresCompletes(loaderFor, roots[..|roots| - 1]);
      AllFailuresSomeStep(loaderFor, roots);
      EveryRootCompletesStep(loaderFor, roots);
    }
  }

  /** The scan of each root, through its own loader, completes. */
  predicate EveryRootCompletes(loaderFor: string -> Loader, roots: seq<Root>) {
    forall i :: 0 <= i < |roots| ==> RootFailures(loaderFor(roots[i].path), roots[i]).Some?
  }

  /** Pooling the roots one at a time completes when the others and the last one do. */
  lemma AllFailuresSomeStep(loaderFor: string -> Loader, roots: seq<Root>)
    requires roots != []
    ensures AllFailures(loaderFor, roots).Some? <==>
      AllFailures(loaderFor, roots[..|roots| - 1]).Some? &&
      RootFailures(loaderFor(roots[|roots| - 1].path), roots[|roots| - 1]).Some?
  {
  }

  /** Every root completes exactly when the others and the last one do. */
  lemma EveryRootCompletesStep(loaderFor: string -> Loader, roots: seq<Root>)
    requires roots != []
    ensures EveryRootCompletes(loaderFor, roots) <==>
      EveryRootCompletes(loaderFor, roots[..|roots| - 1]) &&
      RootFailures(loaderFor(roots[|roots| - 1].path), roots[|roots| - 1]).Some?
  {
    var init := roots[..|roots| - 1];
    assert forall i :: 0 <= i < |init| ==> init[i] == roots[i];
  }

  /** Root `root` completes its walk and holds a class file whose derived name is `n`, and
      loading `n` through `load` throws ClassFormatError. */
  predicate BrokenIn(load: Loader, root: Root, n: string) {
    RootClassFiles(root).Ok? && load(n) == FormatError &&
    exists f :: f in RootClassFiles(root).value && ReplacedName(root.path, f) == n
  }

  /** The failure set of a root that completes holds exactly the names of its broken classes. */
  lemma RootFailuresExact(load: Loader, root: Root, n: string)
    requires RootFailures(load, root).Some?
    ensures n in RootFailures(load, root).value <==> BrokenIn(load, root, n)
  {
    var files := RootClassFiles(root).value;
    if BrokenIn(load, root, n) {
      var f :| f in files && ReplacedName(root.path, f) == n;
    }
  }

  /** Some root holds a class file named `n` whose loading, through that root's own loader,
      throws ClassFormatError. */
  predicate BrokenSomewhere(loaderFor: string -> Loader, roots: seq<Root>, n: string) {
    exists i :: 0 <= i < |roots| && BrokenIn(loaderFor(roots[i].path), roots[i], n)
  }

  /** Pooling the roots one at a time: the last root's failures join those of the others. */
  lemma AllFailuresStep(loaderFor: string -> Loader, roots: seq<Root>)
    requires roots != [] && AllFailures(loaderFor, roots).Some?
    ensures AllFailures(loaderFor, roots[..|roots| - 1]).Some?
    ensures RootFailures(loaderFor(roots[|roots| - 1].path), roots[|roots| - 1]).Some?
    ensures AllFailures(loaderFor, roots).value ==
      AllFailures(loaderFor, roots[..|roots| - 1]).value +
      RootFailures(loaderFor(roots[|roots| - 1].path), roots[|roots| - 1]).value
  {
  }

  /** Some root is broken exactly when one of the others is or the last one is. */
  lemma BrokenSomewhereStep(loaderFor: string -> Loader, roots: seq<Root>, n: string)
    requires roots != []
    ensures BrokenSomewhere(loaderFor, roots, n) <==>
      BrokenSomewhere(loaderFor, roots[..|roots| - 1], n) ||
      BrokenIn(loaderFor(roots[|roots| - 1].path), roots[|roots| - 1], n)
  {
    var init := roots[..|roots| - 1];
    assert forall i :: 0 <= i < |init| ==> init[i] == roots[i];
  }

  /** A name is reported exactly when some root holds a class file with that name whose loading,
      through that root's own loader, throws ClassFormatError. */
  lemma {:induction false} AllFailuresExact(loaderFor: string -> Loader, roots: seq<Root>, n: string)
    requires AllFailures(loaderFor, roots).Some?
    ensures n in AllFailures(loaderFor, roots).value <==> BrokenSomewhere(loaderFor, roots, n)
    decreases |roots|
  {
    if roots != [] {
      AllFailuresStep(loaderFor, roots);
      AllFailuresExact(loaderFor, roots[..|roots| - 1], n);
      BrokenSomewhereStep(loaderFor, roots, n);
      RootFailuresExact(loaderFor(roots[|roots| - 1].path), roots[|roots| - 1], n);
    }
  }

  /** An exception that ends the scan of one root ends the scan of all of them: no report. */
  lemma AbortIsFatal(loaderFor: string -> Loader, roots: seq<Root>, i: int, e: ScanError)
    requires AbortsAt(loaderFor, roots, i, e)
    ensures AllFailures(loaderFor, roots) == None
  {
    RootAbortIsFatal(loaderFor(roots[i].path), roots[i], e);
    AllFailuresCompletes(loaderFor, roots);
  }

  /** An outcome other than ClassFormatError under every root's loader, NoClassDefFoundError
      in particular, never puts a name in the report. */
  lemma SuppressedUnlessFormatError(loaderFor: string -> Loader, roots: seq<Root>, n: string)
    requires AllFailures(loaderFor, roots).Some?
    requires forall i :: 0 <= i < |roots| ==> loaderFor(roots[i].path)(n) != FormatError
    ensures n !in AllFailures(loaderFor, roots).value
  {
    AllFailuresExact(loaderFor, roots, n);
  }
}
