/** The directory tree below a root and the class files a depth-first walk finds in it. */
module FileTree {
  import opened Strings
  import opened Outcomes
  import Names

  /** An entry returned by `listFiles()`: a file, a directory with its listing, or a
      directory for which `listFiles()` returns null (it cannot be read). */
  datatype Node =
    | File(name: string)
    | Dir(name: string, contents: seq<Node>)
    | Unlistable(name: string)

  /** A directory given to the scan, with its absolute path and its listing (`None` when it
      does not exist, is not a directory or cannot be read). */
  datatype Root = Root(path: string, listing: Option<seq<Node>>)

  /** The absolute path of the entry `name` in the directory at `dirPath`. */
  function ChildPath(dirPath: string, name: string): string {
    dirPath + [Separator] + name
  }

  /** An entry's path lies below its directory and ends in the entry's name. */
  lemma ChildPathShape(dirPath: string, name: string)
    ensures StartsWith(ChildPath(dirPath, name), dirPath + [Separator])
    ensures EndsWith(ChildPath(dirPath, name), name)
  {
    var path := ChildPath(dirPath, name);
    assert path[..|dirPath| + 1] == dirPath + [Separator];
    assert path[|path| - |name|..] == name;
  }

  /** The name ends in ".class": it is some stem followed by the suffix. */
  predicate IsClassFile(name: string)
    ensures IsClassFile(name) <==> exists stem :: name == stem + Names.ClassSuffix
  {
    if EndsWith(name, Names.ClassSuffix) then
      assert name == name[..|name| - |Names.ClassSuffix|] + Names.ClassSuffix;
      true
    else
      false
  }

  /** The walk's result on one directory listing: the class files anywhere below it, or the
      first failing listing in depth-first order. */
  function ClassFilesOf(dirPath: string, listing: Option<seq<Node>>): (r: Result<set<string>, ScanError>)
    ensures listing.None? ==> r == Err(ListingFailed(dirPath))
    ensures r.Err? ==> r.error.ListingFailed?
    ensures r.Ok? ==> forall p :: p in r.value ==> FoundBelow(dirPath, p)
  {
    match listing
    case None => Err(ListingFailed(dirPath))
    case Some(contents) => ClassFilesIn(dirPath, contents)
  }

  /** The walk over the entries of one listing, in order. It fails only with a listing that
      cannot be read, and every path it finds lies below `dirPath` and ends in ".class". */
  function ClassFilesIn(dirPath: string, contents: seq<Node>): (r: Result<set<string>, ScanError>)
    ensures r.Err? ==> r.error.ListingFailed?
    ensures r.Ok? ==> forall p :: p in r.value ==> FoundBelow(dirPath, p)
    decreases contents
  {
    if contents == [] then Ok({})
    else Combine(ClassFilesIn(dirPath, contents[..|contents| - 1]),
                 ClassFilesAt(dirPath, contents[|contents| - 1]))
  }

  /** The walk of one entry of the directory at `dirPath`: a class file is found, another
      file is skipped, a directory is walked, and a directory that cannot be listed fails. */
  function ClassFilesAt(dirPath: string, entry: Node): (r: Result<set<string>, ScanError>)
    ensures r.Err? ==> r.error.ListingFailed?
    ensures r.Ok? ==> forall p :: p in r.value ==> FoundBelow(dirPath, p)
    decreases entry
  {
    match entry
    case File(name) =>
      assert IsClassFile(name) ==> FoundBelow(dirPath, ChildPath(dirPath, name)) by {
        FoundBelowChild(dirPath, name, []);
      }
      Ok(if IsClassFile(name) then {ChildPath(dirPath, name)} else {})
    case Dir(name, contents) =>
      var found := ClassFilesIn(ChildPath(dirPath, name), contents);
      assert found.Ok? ==> forall p :: p in found.value ==> FoundBelow(dirPath, p) by {
        forall p | found.Ok? && p in found.value ensures FoundBelow(dirPath, p) {
          FoundBelowChild(dirPath, name, p[|ChildPath(dirPath, name)|..]);
        }
      }
      found
    case Unlistable(name) => Err(ListingFailed(ChildPath(dirPath, name)))
  }

  /** `path` lies strictly below the directory at `dirPath` and ends in ".class". */
  predicate FoundBelow(dirPath: string, path: string) {
    StartsWith(path, dirPath + [Separator]) && EndsWith(path, Names.ClassSuffix)
  }

  /** What lies below a child directory, or is a class file in it, lies below the parent. */
  lemma FoundBelowChild(dirPath: string, name: string, rest: string)
    ensures rest == [] && IsClassFile(name) ==> FoundBelow(dirPath, ChildPath(dirPath, name))
    ensures FoundBelow(ChildPath(dirPath, name), ChildPath(dirPath, name) + rest) ==>
      FoundBelow(dirPath, ChildPath(dirPath, name) + rest)
  {
    var child := ChildPath(dirPath, name);
    assert (child + rest)[..|dirPath| + 1] == dirPath + [Separator];
    if rest == [] && IsClassFile(name) {
      assert child[|child| - |Names.ClassSuffix|..] == name[|name| - |Names.ClassSuffix|..];
    }
  }

  /** The earlier failure wins; otherwise the files found are pooled. */
  function Combine(first: Result<set<string>, ScanError>, second: Result<set<string>, ScanError>)
    : Result<set<string>, ScanError>
  {
    if first.Err? then first
    else if second.Err? then second
    else Ok(first.value + second.value)
  }

  /** What the walk leaves in a caller's accumulator `classFiles`. */
  function Extend(classFiles: set<string>, found: Result<set<string>, ScanError>)
    : Result<set<string>, ScanError>
  {
    match found
    case Ok(files) => Ok(classFiles + files)
    case Err(e) => Err(e)
  }

  /** Reference definition: `path` is the path of a non-directory entry named `*.class`
      somewhere below (or at) `entry`, which sits in the directory at `dirPath`. */
  ghost predicate ClassFileUnder(dirPath: string, entry: Node, path: string)
    decreases entry
  {
    match entry
    case File(name) => IsClassFile(name) && path == ChildPath(dirPath, name)
    case Unlistable(_) => false
    case Dir(name, contents) =>
      exists i :: 0 <= i < |contents| && ClassFileUnder(ChildPath(dirPath, name), contents[i], path)
  }

  /** Reference definition: some directory below (or at) `entry` cannot be listed. */
  ghost predicate HasUnlistable(entry: Node)
    decreases entry
  {
    match entry
    case File(_) => false
    case Unlistable(_) => true
    case Dir(_, contents) => exists i :: 0 <= i < |contents| && HasUnlistable(contents[i])
  }

  /** The walk fails exactly when some directory in the tree cannot be listed, and otherwise
      finds exactly the non-directory `*.class` entries anywhere in it. */
  lemma {:induction false} ClassFilesAtExact(dirPath: string, entry: Node)
    ensures ClassFilesAt(dirPath, entry).Err? <==> HasUnlistable(entry)
    ensures ClassFilesAt(dirPath, entry).Ok? ==>
      forall path :: path in ClassFilesAt(dirPath, entry).value <==> ClassFileUnder(dirPath, entry, path)
    decreases entry, 1
  {
    match entry
    case File(_) =>
    case Unlistable(_) =>
    case Dir(name, contents) =>
      ClassFilesInExact(ChildPath(dirPath, name), contents, |contents|);
      assert contents[..|contents|] == contents;
  }

  /** The same over the first `n` entries of a listing. */
  lemma {:induction false} ClassFilesInExact(dirPath: string, contents: seq<Node>, n: nat)
    requires n <= |contents|
    ensures ClassFilesIn(dirPath, contents[..n]).Err? <==>
      exists i :: 0 <= i < n && HasUnlistable(contents[i])
    ensures ClassFilesIn(dirPath, contents[..n]).Ok? ==>
      forall path :: path in ClassFilesIn(dirPath, contents[..n]).value <==>
        exists i :: 0 <= i < n && ClassFileUnder(dirPath, contents[i], path)
    decreases contents, 0, n
  {
    if n > 0 {
      var prefix := contents[..n];
      assert prefix[..n - 1] == contents[..n - 1];
      assert prefix[n - 1] == contents[n - 1];
      ClassFilesInExact(dirPath, contents, n - 1);
      ClassFilesAtExact(dirPath, contents[n - 1]);
    }
  }

  /** Every class file found below the directory at `dirPath` has the path
      `dirPath + "/" + rel + ".class"`, `rel` being its path relative to that directory
      without the extension. */
  lemma {:induction false} ClassFileShape(dirPath: string, entry: Node, path: string) returns (rel: string)
    requires ClassFileUnder(dirPath, entry, path)
    ensures path == dirPath + [Separator] + rel + Names.ClassSuffix
    decreases entry
  {
    match entry
    case File(name) =>
      rel := name[..|name| - |Names.ClassSuffix|];
      assert name == rel + Names.ClassSuffix;
    case Dir(name, contents) =>
      var child := ChildPath(dirPath, name);
      var i :| 0 <= i < |contents| && ClassFileUnder(child, contents[i], path);
      var below := ClassFileShape(child, contents[i], path);
      rel := name + [Separator] + below;

  }

  /** Once a prefix of a listing fails, the whole listing fails with the same error. */
  lemma {:induction false} FailurePersists(dirPath: string, contents: seq<Node>, n: nat)
    requires n <= |contents| && ClassFilesIn(dirPath, contents[..n]).Err?
    ensures ClassFilesIn(dirPath, contents) == ClassFilesIn(dirPath, contents[..n])
    decreases |contents| - n
  {
    if n < |contents| {
      assert contents[..n + 1][..n] == contents[..n];
      FailurePersists(dirPath, contents, n + 1);
    } else {
      assert contents[..n] == contents;
    }
  }
}
