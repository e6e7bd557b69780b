/**
 `pathinfo($name, PATHINFO_EXTENSION)` as PHP computes it on a POSIX host:
 take the basename (drop trailing '/', keep what follows the last '/'), then
 the part after its last '.', or the empty string when the basename has no '.'.
 */
module PathInfo {
  import opened Text

  /** `basename($path)` with '/' as the only separator. */
  function Basename(path: String): (r: String)
    ensures '/' !in r
  {
    AfterLast(RTrim(path, '/'), '/')
  }

  /** The basename is the last component of the path once trailing '/' are
      dropped: a '/'-free suffix of the trimmed path that is either all of it
      or comes right after a '/'. */
  lemma BasenameIsLastComponent(path: String)
    ensures var t, r := RTrim(path, '/'), Basename(path);
      && '/' !in r
      && EndsWith(t, r)
      && (|r| < |t| ==> t[|t| - |r| - 1] == '/')
      && ('/' !in t ==> r == t)
  {
    var t := RTrim(path, '/');
    var r := AfterLast(t, '/');
    assert Basename(path) == r;
    if '/' in t {
      assert |r| < |t| && t[|t| - |r| - 1] == '/';
    } else {
      assert r == t;
    }
  }

  /** Every character of the basename comes from the path. */
  lemma BasenameChars(path: String)
    ensures forall c :: c in Basename(path) ==> c in path
  {
    var trimmed := RTrim(path, '/');
    SuffixChars(trimmed, Basename(path));
    PrefixChars(path, trimmed);
  }

  /** The extension: what follows the last '.' of the basename. */
  function Extension(path: String): (r: String)
    ensures '.' !in r && '/' !in r
    ensures '.' in Basename(path) ==> EndsWith(Basename(path), "." + r)
    ensures '.' !in Basename(path) ==> r == []
  {
    var base := Basename(path);
    if '.' in base then
      DotSuffix(base);
      AfterLast(base, '.')
    else []
  }

  /** What follows the last '.' of a '/'-free name, with that '.' in front,
      ends the name. */
  lemma DotSuffix(base: String)
    requires '.' in base && '/' !in base
    ensures EndsWith(base, "." + AfterLast(base, '.'))
    ensures '/' !in AfterLast(base, '.')
  {
    var r := AfterLast(base, '.');
    assert base[|base| - |r| - 1..] == "." + r;
    SuffixChars(base, r);
  }

  /** A final '/'-free segment ends up whole in the basename. */
  lemma BasenameAppend(stem: String, tail: String)
    requires |tail| > 0 && '/' !in tail
    ensures Basename(stem + tail) == AfterLast(stem, '/') + tail
  {
    var path := stem + tail;
    assert path[|path| - 1] == tail[|tail| - 1] && tail[|tail| - 1] in tail;
    RTrimNoTrailing(path, '/');
    AfterLastAppend(stem, tail, '/');
  }

  lemma ExtensionFromBasename(path: String, front: String, ext: String)
    requires '.' !in ext && Basename(path) == front + "." + ext
    ensures Extension(path) == ext
  {
    assert (front + "." + ext)[|front|] == '.';
    assert front + "." + ext == front + ['.'] + ext;
    AfterLastSplit(front, ext, '.');
  }

  /** Writing a stem, a dot and a dot-free extension and reading the
      extension back gives that extension: the last segment wins. */
  lemma ExtensionOfSuffix(stem: String, ext: String)
    requires '.' !in ext && '/' !in ext
    ensures Extension(stem + "." + ext) == ext
  {
    var tail := "." + ext;
    ConcatAssoc(stem, ".", ext);
    BasenameAppend(stem, tail);
    var a := AfterLast(stem, '/');
    ConcatAssoc(a, ".", ext);
    ExtensionFromBasename(stem + tail, a, ext);
  }

  /** ExtensionOfSuffix for a stem given in two parts. */
  lemma ExtensionAfterParts(front: String, stem: String, ext: String)
    requires '.' !in ext && '/' !in ext
    ensures Extension(front + (stem + "." + ext)) == ext
  {
    ConcatAssoc(front, stem + ".", ext);
    ConcatAssoc(front, stem, ".");
    ExtensionOfSuffix(front + stem, ext);
  }

  /** "archive.tar.gz" has extension "gz". The name
      is a parameter pinned by `requires`, so that the solver reasons about
      the extension instead of evaluating it on a literal. */
  lemma ExtensionLastSegmentOnly(name: String)
    requires name == "archive.tar.gz"
    ensures Extension(name) == "gz"
  {
    assert name == "archive.tar" + "." + "gz";
    ExtensionOfSuffix("archive.tar", "gz");
  }

  /** Only the last path component matters: dots in directories do not
      count. */
  lemma ExtensionIgnoresDirectories(dir: String, base: String)
    requires '/' !in base && |base| > 0
    ensures Extension(dir + "/" + base) == Extension(base)
  {
    var path := dir + "/" + base;
    RTrimNoTrailing(path, '/');
    AfterLastSplit(dir, base, '/');
    assert Basename(path) == base;
    RTrimNoTrailing(base, '/');
    assert Basename(base) == base;
  }

  /** A name without any '.' has the empty extension. */
  lemma NoDotNoExtension(path: String)
    requires '.' !in path
    ensures Extension(path) == []
  {
    BasenameChars(path);
  }
}
