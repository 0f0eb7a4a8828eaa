# verify-classes-in — a Dafny model of the class-file integrity scan

`VerifyClassesIn` checks one or more class-path directories (roots). For each root it
builds a fresh `URLClassLoader` over that root, whose parent is the system class loader. It walks the root depth-first and
collects every non-directory entry whose name ends in `.class`. It turns each file's
absolute path into a class name, asks the loader for that class, and records the names
whose loading throws `ClassFormatError`. `NoClassDefFoundError` (a reference to a class
outside the root) and successful loads are ignored. Any other exception aborts the scan.
The names found across all roots are pooled into one set. That set is sorted and
reported once per name ("Broken <name>").

The model is split into one module per concern:

- `Outcomes` (outcomes.dfy): what a `loadClass` call can do (`Loaded`, `FormatError`,
  `NoClassDef`, `Thrown`), and why a scan aborts: a directory whose listing is null, or
  an exception propagated from the loader.
- `Strings` (strings.dfy): `String.replace` as a left-to-right, non-overlapping
  replace-all. It also holds the separator mapping, the `String.compareTo` order and
  strictly sorted lists.
- `Names` (names.dfy): the class-name derivation, both as written and as intended (see
  Findings). The scan uses the derivation as written.
- `FileTree` (filetree.dfy): the directory tree, the walk's specification, and its
  exactness against a declarative definition of "a `.class` file somewhere below".
- `Loading` (loading.dfy): the class loader as an oracle from names to outcomes. It
  defines what one root and all roots produce, and proves lemmas about them.
- `Scanning` (scanning.dfy): the class `VerifyClassesIn`. Its field `cl` is reassigned
  per root. Its methods `Scan`, `FindClassesInRoot`, `FindClasses`,
  `ReportUnloadableClasses` and `TryLoad` are each proved against the specification
  functions.

## Model

| member | source | states |
|---|---|---|
| `Scanning.VerifyClassesIn.constructor` | VerifyClassesIn.java:18 | `cl` starts as the context class loader; the per-root loader factory is fixed |
| `Scanning.VerifyClassesIn.Scan` | VerifyClassesIn.java:81-97 | the scan completes exactly when every root's scan does. It then reports the pooled failures of all roots, each name exactly once (multiset equal to the set) and in strictly ascending `compareTo` order. On abort, the error comes from the first root whose scan aborts, all earlier roots having completed, and `cl` is that root's loader |
| `Scanning.VerifyClassesIn.FindClassesInRoot` | VerifyClassesIn.java:99-108 | `cl` is replaced by the loader for this root before anything else. The result is that root's failure set loaded through that loader, or an exception the root's walk or loading can throw |
| `Scanning.VerifyClassesIn.FindClasses` | VerifyClassesIn.java:110-127 | the accumulator gains exactly the class files the walk specification finds (and keeps everything it held), or the walk fails with the first unlistable directory in depth-first order |
| `Scanning.VerifyClassesIn.ReportUnloadableClasses` | VerifyClassesIn.java:129-143 | over a set iterated in any order, loading each file under the name the `replace` chain derives: fails exactly when some file's load throws an uncaught exception, and then with one of those exceptions. Otherwise it returns exactly the derived names whose load throws ClassFormatError |
| `Scanning.VerifyClassesIn.TryLoad` | VerifyClassesIn.java:145-162 | ClassFormatError adds the name; success and NoClassDefFoundError leave the set unchanged; any other throwable (ClassNotFoundException included) propagates with that name |
| `Scanning.SortedNames` | VerifyClassesIn.java:90-91 | copying the set to a list and sorting yields a strictly ascending list that is a permutation of the set |
| `Strings.SortedUnique` | VerifyClassesIn.java:90-91 | two strictly sorted lists with the same elements are equal, so the report is determined by the failure set |
| `Strings.Insert` | VerifyClassesIn.java:91 | inserting a new name into a strictly sorted list keeps it strictly sorted and adds exactly that name |
| `Strings.LessTotal` | VerifyClassesIn.java:91 | the `compareTo` order relates any two distinct strings |
| `Strings.LessTransitive` | VerifyClassesIn.java:91 | the `compareTo` order is transitive |
| `Strings.LessIrreflexive` | VerifyClassesIn.java:91 | no string is below itself |
| `Strings.ReplaceAll` | VerifyClassesIn.java:137-138 | `String.replace` leaves a string without the target unchanged |
| `Strings.ReplaceAllLeading` | VerifyClassesIn.java:137 | a leading occurrence of the target is the first one replaced |
| `Strings.ReplaceAllStripsSuffix` | VerifyClassesIn.java:138 | removing every ".class" from `rel + ".class"` gives back `rel` when `rel` has no ".class" |
| `Strings.NotContainsAppend` | VerifyClassesIn.java:137 | appending text without the target's last character (the separator) creates no occurrence of the base path |
| `Strings.DotSeparators` | VerifyClassesIn.java:139 | same length; each separator becomes '.', every other character is kept; no separator remains |
| `Names.ReplacedNameOfRelative` | VerifyClassesIn.java:132-139 | as written: for `basePath + rel + ".class"` with `rel` holding neither the base path nor ".class", the name is `rel` with '.' for each separator |
| `Names.ClassNameOfRelative` | VerifyClassesIn.java:132-139 | as intended: the name of `basePath + rel + ".class"` is `rel` with '.' for each separator, for every `rel` |
| `Names.DerivationsAgree` | VerifyClassesIn.java:132-139 | under the conditions above, the derivation as written and as intended give the same name |
| `Names.ReplacedNameDropsRepeatedRoot` | VerifyClassesIn.java:132-137 | for the file `base + a + base + b + ".class"`, where `a` holds no separator (nor, for a relative root, the root path's first character), `b` holds no base path and `a + b` holds no ".class": the derivation as written gives `a + b` with '.' for each separator, the intended one `a + base + b` with '.' for each separator, and the two differ |
| `Names.ReplacedNameMergesPackages` | VerifyClassesIn.java:132-139 | as written, root "/x" and file "/x/com/x/Foo.class" give "comFoo" |
| `Names.ClassNameKeepsPackages` | VerifyClassesIn.java:132-139 | as intended, the same file gives "com.x.Foo" |
| `FileTree.ClassFilesAtExact` | VerifyClassesIn.java:110-127 | the walk of an entry fails exactly when some directory below cannot be listed. Otherwise it finds exactly the non-directory `*.class` entries anywhere below; directories and other files are never added |
| `FileTree.ClassFilesInExact` | VerifyClassesIn.java:112-126 | the same for the first n entries of a listing |
| `FileTree.ClassFileShape` | VerifyClassesIn.java:115-123 | every class file found below a directory has the path `dir + "/" + rel + ".class"` |
| `FileTree.FailurePersists` | VerifyClassesIn.java:112-117 | once the walk of a prefix of a listing fails, the whole listing fails with the same error |
| `Names.BasePath` | VerifyClassesIn.java:132 | the base path is the root's path followed by one separator |
| `Names.ReplacedName` | VerifyClassesIn.java:135-139 | the name derived as written is no longer than the path and holds no separator |
| `Names.ClassName` | VerifyClassesIn.java:135-139 | the name derived as intended is no longer than the path and holds no separator |
| `Strings.Less` | VerifyClassesIn.java:91 | the `compareTo` order never relates a string to itself |
| `FileTree.IsClassFile` | VerifyClassesIn.java:121 | a name is taken for a class file exactly when it is some stem followed by ".class" |
| `FileTree.ChildPathShape` | VerifyClassesIn.java:112 | the path `ChildPath` gives an entry of a listing starts with the directory's path and one separator, and ends with the entry's name |
| `FileTree.ClassFilesOf` | VerifyClassesIn.java:112-113 | a root whose listing is null fails with a listing failure naming that root; otherwise the walk fails only on an unlistable directory, and every path found lies below the root and ends in ".class" |
| `FileTree.ClassFilesIn` | VerifyClassesIn.java:112-126 | the walk of a listing fails only on a directory that cannot be listed, and every path it finds lies below the directory and ends in ".class" |
| `FileTree.ClassFilesAt` | VerifyClassesIn.java:115-125 | the same for one entry: a class file is found, a directory is walked, an unlistable directory fails |
| `Loading.RootFailures` | VerifyClassesIn.java:99-107 | a root whose walk fails has no failure set, and every name in a root's failure set loads with ClassFormatError |
| `Loading.AllFailures` | VerifyClassesIn.java:84-89 | every pooled name loads with ClassFormatError under the loader of some root |
| `Loading.Unloadables` | VerifyClassesIn.java:129-143 | its names are exactly the names derived as written (`ReplacedName`) from the given files whose load is a format error, so it is a subset of the derived names |
| `Loading.DiscoveredClassName` | VerifyClassesIn.java:132-139 | each class file a root's walk finds is `basePath + rel + ".class"`. Its intended name is `rel` with '.' for each separator. The name the scan loads is the same whenever `rel` contains neither the base path nor ".class" |
| `Loading.RootAbortIsFatal` | VerifyClassesIn.java:99-107 | a root whose walk or loading throws has no failure set |
| `Loading.AbortIsFatal` | VerifyClassesIn.java:81-89 | an exception from one root's scan leaves the whole scan without a report |
| `Loading.AllFailuresCompletes` | VerifyClassesIn.java:84-89 | the scan of all roots completes exactly when each root's scan completes |
| `Loading.AllFailuresExact` | VerifyClassesIn.java:84-89 | a name is in the pooled set exactly when some root completes its walk, holds a class file whose derived name is that name, and loading that name through that root's own loader throws ClassFormatError |
| `Loading.RootFailuresExact` | VerifyClassesIn.java:99-107 | the failure set of a root that completes holds exactly the derived names of its class files whose load through that root's loader throws ClassFormatError |
| `Loading.SuppressedUnlessFormatError` | VerifyClassesIn.java:157-161 | a name whose outcome is not ClassFormatError under any root's loader (NoClassDefFoundError, say) is never reported |

## Findings

| source | as written | input that shows it | evidently intended | confidence | as-written member | corrected member |
|---|---|---|---|---|---|---|
| VerifyClassesIn.java:136-137 | `path.replace(basePath, "")` removes every occurrence of the root's path plus separator, not just the leading one | root `/x` holding `/x/com/x/Foo.class` (class `com.x.Foo`): the loader is asked for `comFoo` | strip the base path as a prefix only, giving `com.x.Foo` | not executed; high | `Names.ReplacedNameMergesPackages` | `Names.ClassNameOfRelative` |

The loader is most likely to answer the mis-derived name with `ClassNotFoundException`,
which would abort the scan. The model does not assume this, because the loader is an
oracle. The same `replace` also removes ".class" wherever it occurs
(VerifyClassesIn.java:138). The scan in this model derives names as the code does, with
`Names.ReplacedName`; the intended derivation `Names.ClassName` is modelled beside it.
`Names.DerivationsAgree` and `Loading.DiscoveredClassName` show that the two coincide
whenever the relative path contains neither the base path nor ".class".

## Left out

- `main` and `findClassPathDirs` (VerifyClassesIn.java:21-58): argument parsing, system
  properties and `isDirectory` probing of the class path. The roots are a parameter of `Scan`.
- The logger, its formatter and handler (VerifyClassesIn.java:60-79), and every log call.
  The "Broken" lines are modelled as the sequence `Scan` returns. The "Scanning" line
  and the FINE/FINEST diagnostics are not modelled.
- Names.ReplacedNameDropsRepeatedRoot: covers a repeated base path that directly follows a
  top-level directory of the root. A deeper repetition such as `/x/org/com/x/Foo.class`, from
  which the source derives `org.comFoo`, is not covered by a lemma.
- Parent-first delegation: each root's `URLClassLoader` asks the system class loader first,
  so a class that also lies under another class-path directory is loaded from there. The
  oracle `loaderFor(root.path)` absorbs this; the model promises no isolation between roots.
- Real class loading: `URLClassLoader`, `toURI().toURL()` and bytecode verification. Each
  root's loader is `loaderFor(root.path)`, a function from names to outcomes, and loading
  is taken to be deterministic. A `MalformedURLException` from `toURL()` is not modelled.
- Real file system access. The tree is finite and acyclic, and symbolic links are not
  modelled. `getAbsolutePath()` normalisation is not modelled: a root's path is used as
  given. `FileTree.ChildPath` always joins a directory and an entry with one separator,
  while `java.io.File` does not add one after the file-system root `/`. So for the root `/`
  the model forms the child path `//usr` where Java forms `/usr`, and a class file
  `/usr/Foo.class` is named `usr.Foo` in the model but `.usr.Foo` by the source.
- `replaceAll(File.separator, ".")` is modelled for the separator `/`, which has no
  meaning in a regular expression. Windows' `\` separator is not modelled.
- Strings.Less: compares Dafny characters (Unicode scalar values). `String.compareTo`
  compares UTF-16 code units, so the two orders can differ only for characters outside
  the Basic Multilingual Plane.
- Scanning.SortedNames: `Collections.sort` sorts the list in place. The model builds the
  sorted list by insertion instead. Its result is the same, because the elements are
  distinct and a strictly sorted list of them is unique (`Strings.SortedUnique`).
- Scanning.VerifyClassesIn.ReportUnloadableClasses: `HashSet` iteration order is
  unspecified. When several files would throw, the contract says only that the error is
  one of theirs.
- A null listing makes the source throw a `NullPointerException` at VerifyClassesIn.java:113.
  The model returns it as `ListingFailed(path)` and checks the root's listing in
  `FindClassesInRoot`. The source checks it on entry to `findClasses(File, Set)`; the
  observable behaviour is the same.
- "Broken" lines are emitted only after every root has been scanned, not streamed per
  root. A scan that completes reports its findings without failing.
