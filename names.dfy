/** The logical class name derived from a class file's absolute path and its root. */
module Names {
  import opened Strings

  /** The extension that marks a class file, removed from its path to form the name. */
  const ClassSuffix: string := ".class"

  /** `baseDir.getAbsolutePath() + File.separator`. */
  function BasePath(rootPath: string): (base: string)
    ensures StartsWith(base, rootPath) && EndsWith(base, [Separator])
    ensures |base| == |rootPath| + 1
  {
    rootPath + [Separator]
  }

  /** The derivation as written: every occurrence of the base path is removed, then every
      occurrence of ".class", then each separator becomes '.'. */
  function ReplacedName(rootPath: string, path: string): (name: string)
    ensures |name| <= |path| && Separator !in name
  {
    var withoutBase := ReplaceAll(path, BasePath(rootPath), []);
    ReplaceAllNoLonger(path, BasePath(rootPath), []);
    ReplaceAllNoLonger(withoutBase, ClassSuffix, []);
    DotSeparators(ReplaceAll(withoutBase, ClassSuffix, []))
  }

  /** The derivation as intended: the base path is removed where it is a prefix, ".class"
      where it is a suffix, then each separator becomes '.'. */
  function ClassName(rootPath: string, path: string): (name: string)
    ensures |name| <= |path| && Separator !in name
  {
    var base := BasePath(rootPath);
    var rel := if StartsWith(path, base) then path[|base|..] else path;
    var stem := if EndsWith(rel, ClassSuffix) then rel[..|rel| - |ClassSuffix|] else rel;
    DotSeparators(stem)
  }

  /** The intended name of the file at `rel + ".class"` below the root is `rel` with '.' for
      each separator, whatever `rel` contains. */
  lemma ClassNameOfRelative(rootPath: string, rel: string)
    ensures ClassName(rootPath, BasePath(rootPath) + rel + ClassSuffix) == DotSeparators(rel)
  {
    var base := BasePath(rootPath);
    var path := base + rel + ClassSuffix;
    assert StartsWith(path, base) by { assert path[..|base|] == base; }
    assert path[|base|..] == rel + ClassSuffix;
    assert (rel + ClassSuffix)[..|rel|] == rel;
  }

  /** The derivation as written gives the same name as long as `rel` contains neither the
      base path nor ".class". */
  lemma ReplacedNameOfRelative(rootPath: string, rel: string)
    requires !Contains(rel, BasePath(rootPath)) && !Contains(rel, ClassSuffix)
    ensures ReplacedName(rootPath, BasePath(rootPath) + rel + ClassSuffix) == DotSeparators(rel)
  {
    var base := BasePath(rootPath);
    var tail := rel + ClassSuffix;
    assert base + rel + ClassSuffix == base + tail;
    ReplaceAllLeading(base, tail, []);
    assert ReplaceAll(base + tail, base, []) == ReplaceAll(tail, base, []);
    SuffixFacts();
    NotContainsAppend(rel, ClassSuffix, base);
    assert ReplaceAll(tail, base, []) == tail;
    ReplaceAllStripsSuffix(rel, ClassSuffix);
  }

  /** The characters of ".class" that the derivation's proofs rely on. */
  lemma SuffixFacts()
    ensures ClassSuffix != [] && Separator !in ClassSuffix
    ensures ClassSuffix[0] == '.' && '.' !in ClassSuffix[1..]
  {
    assert ClassSuffix == ['.', 'c', 'l', 'a', 's', 's'];
    assert ClassSuffix[1..] == ['c', 'l', 'a', 's', 's'];
  }

  /** Under those conditions the two derivations agree. */
  lemma DerivationsAgree(rootPath: string, rel: string)
    requires !Contains(rel, BasePath(rootPath)) && !Contains(rel, ClassSuffix)
    ensures ReplacedName(rootPath, BasePath(rootPath) + rel + ClassSuffix)
         == ClassName(rootPath, BasePath(rootPath) + rel + ClassSuffix)
  {
    ReplacedNameOfRelative(rootPath, rel);
    ClassNameOfRelative(rootPath, rel);
  }

  /** A root whose path reappears below it, at `base + a + base + b + ".class"` with no
      separator in `a`, no base path in `b` and no ".class" in `a + b`: the derivation as
      written removes that inner occurrence too, so the name it asks the loader for loses the
      directories between the two separators, and it differs from the intended name. */
  lemma ReplacedNameDropsRepeatedRoot(rootPath: string, a: string, b: string)
    requires BasePath(rootPath)[0] !in a
    requires !Contains(b, BasePath(rootPath)) && !Contains(a + b, ClassSuffix)
    ensures var path := BasePath(rootPath) + a + BasePath(rootPath) + b + ClassSuffix;
      ReplacedName(rootPath, path) == DotSeparators(a + b) &&
      ClassName(rootPath, path) == DotSeparators(a + BasePath(rootPath) + b) &&
      ReplacedName(rootPath, path) != ClassName(rootPath, path)
  {
    AsWrittenDropsRepeatedRoot(rootPath, a, b);
    IntendedKeepsRepeatedRoot(rootPath, a, b);
    LongerName(a, b, BasePath(rootPath));
  }

  lemma IntendedKeepsRepeatedRoot(rootPath: string, a: string, b: string)
    ensures ClassName(rootPath, BasePath(rootPath) + a + BasePath(rootPath) + b + ClassSuffix)
         == DotSeparators(a + BasePath(rootPath) + b)
  {
    var base := BasePath(rootPath);
    assert base + a + base + b + ClassSuffix == base + (a + base + b) + ClassSuffix;
    ClassNameOfRelative(rootPath, a + base + b);
  }

  lemma LongerName(a: string, b: string, inner: string)
    requires inner != []
    ensures DotSeparators(a + b) != DotSeparators(a + inner + b)
  {
    assert |DotSeparators(a + b)| < |DotSeparators(a + inner + b)|;
  }

  lemma AsWrittenDropsRepeatedRoot(rootPath: string, a: string, b: string)
    requires BasePath(rootPath)[0] !in a
    requires !Contains(b, BasePath(rootPath)) && !Contains(a + b, ClassSuffix)
    ensures ReplacedName(rootPath, BasePath(rootPath) + a + BasePath(rootPath) + b + ClassSuffix)
         == DotSeparators(a + b)
  {
    var base := BasePath(rootPath);
    var path := base + a + base + b + ClassSuffix;
    assert ReplaceAll(path, base, []) == (a + b) + ClassSuffix by {
      assert path == base + (a + (base + (b + ClassSuffix)));
      RemoveRepeatedBase(base, a, b);
      assert a + (b + ClassSuffix) == (a + b) + ClassSuffix;
    }
    assert ReplaceAll((a + b) + ClassSuffix, ClassSuffix, []) == a + b by {
      SuffixFacts();
      ReplaceAllStripsSuffix(a + b, ClassSuffix);
    }
  }

  /** Removing every base path from `base + a + base + b + ".class"` leaves `a + b + ".class"`. */
  lemma RemoveRepeatedBase(base: string, a: string, b: string)
    requires base != [] && base[|base| - 1] == Separator && base[0] !in a
    requires !Contains(b, base)
    ensures ReplaceAll(base + (a + (base + (b + ClassSuffix))), base, []) == a + (b + ClassSuffix)
  {
    var tail := b + ClassSuffix;
    var y := base + tail;
    var x := a + y;
    assert ReplaceAll(base + x, base, []) == ReplaceAll(x, base, []) by {
      ReplaceAllLeading(base, x, []);
    }
    assert ReplaceAll(x, base, []) == a + ReplaceAll(y, base, []) by {
      ReplaceAllSkip(a, y, base, []);
    }
    assert ReplaceAll(y, base, []) == tail by {
      ReplaceAllLeading(base, tail, []);
      SuffixFacts();
      NotContainsAppend(b, ClassSuffix, base);
    }
  }

  /** An instance: under root "/x" the file "/x/com/x/Foo.class" holds class com.x.Foo, but the
      derivation as written asks the loader for "comFoo". */
  lemma ReplacedNameMergesPackages(rootPath: string, path: string)
    requires rootPath == "/x" && path == "/x/com/x/Foo.class"
    ensures ReplacedName(rootPath, path) == "comFoo"
  {
    var base := BasePath(rootPath);
    assert base == "/x/";
    assert path == base + "com" + base + "Foo" + ClassSuffix;
    MissingCharacter("Foo", base, Separator);
    MissingCharacter("com" + "Foo", ClassSuffix, '.');
    AsWrittenDropsRepeatedRoot(rootPath, "com", "Foo");
    assert DotSeparators("com" + "Foo") == "comFoo";
  }

  /** The intended derivation names the same file com.x.Foo. */
  lemma ClassNameKeepsPackages(rootPath: string, rel: string, path: string)
    requires rootPath == "/x" && rel == "com/x/Foo" && path == BasePath(rootPath) + rel + ClassSuffix
    ensures path == "/x/com/x/Foo.class"
    ensures ClassName(rootPath, path) == "com.x.Foo"
  {
    ExamplePath(rootPath, rel, path);
    ClassNameOfRelative(rootPath, rel);
    ExampleDots(rel);
  }

  /** The example file's path, built from its parts. */
  lemma ExamplePath(rootPath: string, rel: string, path: string)
    requires rootPath == "/x" && rel == "com/x/Foo" && path == BasePath(rootPath) + rel + ClassSuffix
    ensures path == "/x/com/x/Foo.class"
  {
    assert BasePath(rootPath) == "/x/";
  }

  /** The example's relative path with '.' for each separator. */
  lemma ExampleDots(rel: string)
    requires rel == "com/x/Foo"
    ensures DotSeparators(rel) == "com.x.Foo"
  {
    var r := DotSeparators(rel);
    assert |r| == 9;
    assert forall i :: 0 <= i < 9 ==> r[i] == "com.x.Foo"[i];
  }
}
