/**
 The public URL of a stored object. With a bucket domain configured the URL is
 `rtrim(domain, '/') . '/' . ltrim(key, '/')`; otherwise it is whatever URL the
 store reports, passed through untouched.
 */
module Url {
  import opened Text

  /** PHP truthiness of `$option->bucketDomain`, with "set" read as
      non-empty. */
  predicate DomainSet(domain: String) {
    |domain| > 0
  }

  /** Joins a custom domain and an object key with exactly one '/'. */
  function JoinUrl(domain: String, key: String): (url: String)
    ensures StartsWith(url, RTrim(domain, '/'))
    ensures EndsWith(url, LTrim(key, '/'))
    ensures |url| == |RTrim(domain, '/')| + 1 + |LTrim(key, '/')|
    ensures url[|RTrim(domain, '/')|] == '/'
    ensures |RTrim(domain, '/')| > 0 ==> url[|RTrim(domain, '/')| - 1] != '/'
    ensures |LTrim(key, '/')| > 0 ==> url[|RTrim(domain, '/')| + 1] != '/'
  {
    var d := RTrim(domain, '/');
    var k := LTrim(key, '/');
    var url := d + "/" + k;
    assert url[..|d|] == d;
    assert url[|url| - |k|..] == k;
    url
  }

  /** The URL handed back to the host: the custom domain wins whenever it is
      set; otherwise the store's own URL comes back unmodified. */
  function ResolveUrl(domain: String, key: String, storeUrl: String): (url: String)
    ensures DomainSet(domain) ==> url == JoinUrl(domain, key)
    ensures !DomainSet(domain) ==> url == storeUrl
  {
    if DomainSet(domain) then JoinUrl(domain, key) else storeUrl
  }

  /** However many '/' end the domain or start the key, the join is the
      same, so it never holds a doubled or missing separator. */
  lemma JoinIgnoresSlashCounts(domain: String, key: String, i: nat, j: nat)
    ensures JoinUrl(domain + Repeat('/', i), Repeat('/', j) + key) == JoinUrl(domain, key)
  {
    RTrimIgnoresTrailing(domain, '/', i);
    LTrimIgnoresLeading(key, '/', j);
  }

  /** With a domain set, the store's URL plays no part. */
  lemma DomainHidesStoreUrl(domain: String, key: String, u1: String, u2: String)
    requires DomainSet(domain)
    ensures ResolveUrl(domain, key, u1) == ResolveUrl(domain, key, u2)
  {
  }

  /** "https://cdn.example.com/" and "/2024/09/abc.png" join to
      "https://cdn.example.com/2024/09/abc.png". Domain and key are
      parameters pinned by `requires`, so that the solver reasons about the
      join instead of evaluating it on literals. */
  lemma CdnExample(domain: String, key: String)
    requires domain == "https://cdn.example.com" && key == "2024/09/abc.png"
    ensures JoinUrl(domain + "/", "/" + key) == "https://cdn.example.com/2024/09/abc.png"
  {
    assert domain + "/" + key == "https://cdn.example.com/2024/09/abc.png";
    JoinIgnoresSlashCounts(domain, key, 1, 1);
    assert Repeat('/', 1) == "/";
    RTrimNoTrailing(domain, '/');
    LTrimNoLeading(key, '/');
  }
}
