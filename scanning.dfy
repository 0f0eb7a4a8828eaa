/** The scanner: one class loader per root, the walk, the loading of every class file found,
    and the sorted report of the classes that are broken. */
module Scanning {
  import opened Outcomes
  import opened Strings
  import opened FileTree
  import opened Names
  import opened Loading

  class VerifyClassesIn {
    /** The loader through which names are loaded; replaced for each root. */
    var cl: Loader
    /** `new URLClassLoader(new URL[] { dir.toURI().toURL() })` for the root at a path. */
    const loaderFor: string -> Loader

    constructor (contextLoader: Loader, loaderFor: string -> Loader)
      ensures cl == contextLoader && this.loaderFor == loaderFor
    {
      cl := contextLoader;
      this.loaderFor := loaderFor;
    }

    /** Scans each root in turn and reports, once each and in ascending order, every class
        whose loading threw ClassFormatError under the loader of a root holding it. */
    method Scan(dirs: seq<Root>) returns (r: Result<seq<string>, ScanError>)
      modifies this
      ensures r.Ok? <==> AllFailures(loaderFor, dirs).Some?
      ensures r.Ok? ==> StrictlySorted(r.value)
      ensures r.Ok? ==> multiset(r.value) == multiset(AllFailures(loaderFor, dirs).value)
      ensures r.Ok? ==> cl == if dirs == [] then old(cl) else loaderFor(dirs[|dirs| - 1].path)
      ensures r.Err? ==>
        exists i :: AbortsAt(loaderFor, dirs, i, r.error) && cl == loaderFor(dirs[i].path)
    {
      var allUnloadable: set<string> := {};
      var k := 0;
      while k < |dirs|
        invariant 0 <= k <= |dirs|
        invariant AllFailures(loaderFor, dirs[..k]) == Some(allUnloadable)
        invariant cl == if k == 0 then old(cl) else loaderFor(dirs[k - 1].path)
      {
        var couldNotLoad := FindClassesInRoot(dirs[k]);
        if couldNotLoad.Err? {
          assert AbortsAt(loaderFor, dirs, k, couldNotLoad.error);
          AbortIsFatal(loaderFor, dirs, k, couldNotLoad.error);
          return Err(couldNotLoad.error);
        }
        assert dirs[..k + 1][..k] == dirs[..k] && dirs[..k + 1][k] == dirs[k];
        allUnloadable := allUnloadable + couldNotLoad.value;
        k := k + 1;
      }
      assert dirs[..k] == dirs;
      var orderedClassNames := SortedNames(allUnloadable);
      return Ok(orderedClassNames);
    }

    /** Makes the loader for one root, walks it and loads every class file found. */
    method FindClassesInRoot(dir: Root) returns (r: Result<set<string>, ScanError>)
      modifies this
      ensures cl == loaderFor(dir.path)
      ensures r.Ok? <==> RootFailures(cl, dir).Some?
      ensures r.Ok? ==> r.value == RootFailures(cl, dir).value
      ensures r.Err? ==> RootAbortsWith(cl, dir, r.error)
    {
      cl := loaderFor(dir.path);
      if dir.listing.None? {
        return Err(ListingFailed(dir.path));
      }
      var classFiles := FindClasses(dir.path, dir.listing.value, {});
      if classFiles.Err? {
        return Err(classFiles.error);
      }
      r := ReportUnloadableClasses(dir.path, classFiles.value);
    }

    /** Adds to `classFiles` every non-directory entry named `*.class` anywhere below the
        directory at `dirPath` whose listing is `contents`; fails on the first directory, in
        depth-first order, that cannot be listed. */
    method FindClasses(dirPath: string, contents: seq<Node>, classFiles: set<string>)
      returns (r: Result<set<string>, ScanError>)
      ensures r == Extend(classFiles, ClassFilesIn(dirPath, contents))
      ensures r.Ok? ==> classFiles <= r.value
      decreases contents
    {
      var acc := classFiles;
      var i := 0;
      while i < |contents|
        invariant 0 <= i <= |contents|
        invariant ClassFilesIn(dirPath, contents[..i]).Ok?
        invariant acc == classFiles + ClassFilesIn(dirPath, contents[..i]).value
      {
        assert contents[..i + 1][..i] == contents[..i];
        match contents[i] {
          case File(name) =>
            if IsClassFile(name) {
              acc := acc + {ChildPath(dirPath, name)};
            }
          case Dir(name, below) =>
            var found := FindClasses(ChildPath(dirPath, name), below, acc);
            if found.Err? {
              FailurePersists(dirPath, contents, i + 1);
              return found;
            }
            acc := found.value;
          case Unlistable(name) =>
            FailurePersists(dirPath, contents, i + 1);
            return Err(ListingFailed(ChildPath(dirPath, name)));
        }
        i := i + 1;
      }
      assert contents[..i] == contents;
      return Ok(acc);
    }

    /** Loads the class named by each class file through `cl`, in no particular order, and
        returns the names whose loading threw ClassFormatError; any exception other than the
        two `tryLoad` catches ends the loop. */
    method ReportUnloadableClasses(baseDir: string, classFiles: set<string>)
      returns (r: Result<set<string>, ScanError>)
      ensures r.Ok? <==> !Aborts(cl, baseDir, classFiles)
      ensures r.Ok? ==> r.value == Unloadables(cl, baseDir, classFiles)
      ensures r.Err? ==> AbortsWith(cl, baseDir, classFiles, r.error)
    {
      var unloadables: set<string> := {};
      var remaining := classFiles;
      while remaining != {}
        invariant remaining <= classFiles
        invariant !Aborts(cl, baseDir, classFiles - remaining)
        invariant unloadables == Unloadables(cl, baseDir, classFiles - remaining)
        decreases remaining
      {
        var file :| file in remaining;
        var name := ReplacedName(baseDir, file);
        var loaded := TryLoad(name, unloadables);
        if loaded.Err? {
          return Err(loaded.error);
        }
        unloadables := loaded.value;
        remaining := remaining - {file};
      }
      assert classFiles - remaining == classFiles;
      return Ok(unloadables);
    }

    /** Loads one class through `cl`: ClassFormatError adds its name to `unloadables`,
        success and NoClassDefFoundError leave them as they are, anything else propagates. */
    method TryLoad(className: string, unloadables: set<string>)
      returns (r: Result<set<string>, ScanError>)
      ensures r.Err? <==> cl(className).Thrown?
      ensures r.Err? ==> r.error == LoadFailed(className, cl(className).error)
      ensures r.Ok? ==> r.value == if cl(className) == FormatError then unloadables + {className}
                                   else unloadables
    {
      match cl(className)
      case Loaded =>
        r := Ok(unloadables);
      case FormatError =>
        r := Ok(unloadables + {className});
      case NoClassDef =>
        r := Ok(unloadables);
      case Thrown(e) =>
        r := Err(LoadFailed(className, e));
    }
  }

  /** `new ArrayList<String>(names)` followed by `sort`: the names, each once, in ascending
      order. */
  method SortedNames(names: set<string>) returns (list: seq<string>)
    ensures StrictlySorted(list)
    ensures multiset(list) == multiset(names)
  {
    list := [];
    var remaining := names;
    while remaining != {}
      invariant remaining <= names
      invariant StrictlySorted(list)
      invariant multiset(list) == multiset(names - remaining)
      decreases remaining
    {
      var name :| name in remaining;
      assert name !in multiset(list);
      list := Insert(list, name);
      assert names - (remaining - {name}) == (names - remaining) + {name};
      remaining := remaining - {name};
    }
    assert names - remaining == names;
  }
}
