/**
 The object key `uploadHandle` stores a file under: the formatted save path,
 then the md5 of the original name, a '.', and the name's extension. The hash
 is a parameter (any function from strings to strings); nothing here depends
 on it being md5.
 */
module Keys {
  import opened Text
  import opened SavePath
  import opened PathInfo

  /** `$path . md5($file['name']) . '.' . pathinfo($file['name'],
      PATHINFO_EXTENSION)`, where `$path` is the formatted save path. */
  function ObjectKey(path: String, name: String, md5: String -> String): (key: String)
    ensures StartsWith(key, path)
    ensures EndsWith(key, "." + Extension(name))
    ensures |key| == |path| + |md5(name)| + 1 + |Extension(name)|
    ensures key[|path|..|path| + |md5(name)|] == md5(name)
  {
    Layout(path, md5(name), Extension(name))
  }

  /** A key laid out from its three parts: the parts can be read back at
      their places. */
  function Layout(path: String, hash: String, ext: String): (key: String)
    ensures StartsWith(key, path)
    ensures EndsWith(key, "." + ext)
    ensures |key| == |path| + |hash| + 1 + |ext|
    ensures key[|path|..|path| + |hash|] == hash
  {
    var key := path + (hash + "." + ext);
    assert key[..|path|] == path;
    assert key[|key| - |"." + ext|..] == "." + ext;
    assert key[|path|..|path| + |hash|] == hash;
    key
  }

  /** A name with no extension (no '.' at all, or one at the very end of its
      basename) gives a key ending in the hash and a bare '.'. */
  lemma KeyWithoutExtension(path: String, name: String, md5: String -> String)
    requires Extension(name) == []
    ensures EndsWith(ObjectKey(path, name, md5), md5(name) + ".")
  {
    var key := ObjectKey(path, name, md5);
    assert key == path + (md5(name) + ".");
  }

  /** The key keeps the uploaded name's extension, so a lookup on the key's
      extension (the mime type) sees the original one. */
  lemma KeyKeepsExtension(path: String, name: String, md5: String -> String)
    ensures Extension(ObjectKey(path, name, md5)) == Extension(name)
  {
    ExtensionAfterParts(path, md5(name), Extension(name));
  }

  /** Under one save path the key determines the hash and the extension:
      since the extension holds no '.', the last '.' of the key separates
      them. Two uploads share a key only if both agree. */
  lemma KeyDeterminesParts(path: String, n1: String, n2: String, md5: String -> String)
    requires ObjectKey(path, n1, md5) == ObjectKey(path, n2, md5)
    ensures md5(n1) == md5(n2) && Extension(n1) == Extension(n2)
  {
    var h1, e1 := md5(n1), Extension(n1);
    var h2, e2 := md5(n2), Extension(n2);
    DropCommonPrefix(path, h1 + "." + e1, h2 + "." + e2);
    FileNameParts(h1, e1, h2, e2);
  }

  lemma DropCommonPrefix(path: String, f1: String, f2: String)
    requires path + f1 == path + f2
    ensures f1 == f2
  {
    assert f1 == (path + f1)[|path|..];
    assert f2 == (path + f2)[|path|..];
  }

  /** A hash, a '.' and a dot-free extension can be split apart again. */
  lemma FileNameParts(h1: String, e1: String, h2: String, e2: String)
    requires '.' !in e1 && '.' !in e2
    requires h1 + "." + e1 == h2 + "." + e2
    ensures h1 == h2 && e1 == e2
  {
    assert h1 + "." + e1 == h1 + ['.'] + e1;
    assert h2 + "." + e2 == h2 + ['.'] + e2;
    AfterLastSplit(h1, e1, '.');
    AfterLastSplit(h2, e2, '.');
    assert h1 == (h1 + "." + e1)[..|h1|];
    assert h2 == (h2 + "." + e2)[..|h2|];
  }

  /** The key is the path, the hash, '.', and the name's extension. */
  lemma KeyFromExtension(path: String, name: String, ext: String, md5: String -> String)
    requires Extension(name) == ext
    ensures ObjectKey(path, name, md5) == path + md5(name) + ("." + ext)
  {
    Regrouped(path, md5(name), ext);
  }

  lemma Regrouped(path: String, hash: String, ext: String)
    ensures path + (hash + "." + ext) == path + hash + ("." + ext)
  {
    assert hash + "." + ext == hash + ("." + ext);
    ConcatAssoc(path, hash, "." + ext);
  }

  /** A name written as a stem, '.' and a '.'-free extension is stored
      under the hash followed by '.' and that extension. */
  lemma KeyOfNamedFile(path: String, stem: String, ext: String, md5: String -> String)
    requires '.' !in ext && '/' !in ext
    ensures ObjectKey(path, stem + "." + ext, md5) == path + md5(stem + "." + ext) + ("." + ext)
  {
    ExtensionOfSuffix(stem, ext);
    KeyFromExtension(path, stem + "." + ext, ext, md5);
  }

  /** "cat.jpg" has extension "jpg". The name
      is a parameter pinned by `requires`, so that the solver reasons about
      the extension instead of evaluating it on a literal. */
  lemma CatExtension(name: String)
    requires name == "cat.jpg"
    ensures Extension(name) == "jpg"
  {
    var stem, ext := "cat", "jpg";
    assert name == stem + "." + ext;
    ExtensionOfSuffix(stem, ext);
  }

  /** A file named `stem.ext` uploaded in March 2025 under the default
      pattern is stored as "2025/03/" + its hash + "." + ext; "cat.jpg"
      (see CatExtension) becomes "2025/03/<md5>.jpg". */
  // The pattern and date are parameters pinned by `requires` so that the
  // solver does not unfold FormatSavePath over the literal pattern.
  lemma March2025Key(pattern: String, today: Date, stem: String, ext: String, md5: String -> String)
    requires pattern == DefaultSavePath && today == Date(2025, 3)
    requires '.' !in ext && '/' !in ext
    ensures ObjectKey(FormatSavePath(pattern, today), stem + "." + ext, md5)
         == "2025/03/" + md5(stem + "." + ext) + ("." + ext)
  {
    March2025Path(pattern, today);
    KeyOfNamedFile(FormatSavePath(pattern, today), stem, ext, md5);
  }
}
