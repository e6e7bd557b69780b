/**
 String helpers with the semantics of the PHP built-ins the plugin relies on:
 `str_replace` with a single search string, `rtrim`/`ltrim` with one character
 to strip, and "the part after the last occurrence of a character", which is
 how `basename` and `pathinfo` cut a path.
 */
module Text {

  type String = seq<char>

  predicate StartsWith(s: String, p: String) {
    |p| <= |s| && s[..|p|] == p
  }

  predicate EndsWith(s: String, p: String) {
    |p| <= |s| && s[|s| - |p|..] == p
  }

  /** `n` occurs somewhere in `s` as a contiguous block. */
  predicate Contains(s: String, n: String)
    decreases |s|
  {
    StartsWith(s, n) || (|s| > 0 && Contains(s[1..], n))
  }

  /** No character of `a` occurs in `b`. */
  predicate Disjoint(a: String, b: String) {
    forall c :: c in a ==> c !in b
  }

  /** Every character of `s` is `c`. */
  predicate AllAre(s: String, c: char) {
    forall i :: 0 <= i < |s| ==> s[i] == c
  }

  function Repeat(c: char, k: nat): (r: String)
    ensures |r| == k && AllAre(r, c)
  {
    seq(k, _ => c)
  }

  // ---------------------------------------------------------------------
  // str_replace($n, $r, $s) for one search string
  // ---------------------------------------------------------------------

  /** Scans `s` left to right and replaces every non-overlapping occurrence
      of `n` by `r`; an empty search string leaves the subject alone, as
      PHP does. */
  function ReplaceAll(s: String, n: String, r: String): (out: String)
    ensures !Contains(s, n) ==> out == s
    decreases |s|
  {
    if |n| == 0 || |s| < |n| then s
    else if s[..|n|] == n then r + ReplaceAll(s[|n|..], n, r)
    else
      var rest := ReplaceAll(s[1..], n, r);
      assert !Contains(s, n) ==> !Contains(s[1..], n);
      assert s == [s[0]] + s[1..];
      [s[0]] + rest
  }

  lemma ConcatAssoc(a: String, b: String, c: String)
    ensures a + (b + c) == a + b + c
  {
  }

  /** Characters of a suffix are characters of the whole. */
  lemma SuffixChars(s: String, r: String)
    requires EndsWith(s, r)
    ensures forall c :: c in r ==> c in s
  {
    forall c | c in r ensures c in s {
      var i :| 0 <= i < |r| && r[i] == c;
      assert s[|s| - |r| + i] == c;
    }
  }

  /** Characters of a prefix are characters of the whole. */
  lemma PrefixChars(s: String, r: String)
    requires StartsWith(s, r)
    ensures forall c :: c in r ==> c in s
  {
    forall c | c in r ensures c in s {
      var i :| 0 <= i < |r| && r[i] == c;
      assert s[i] == c;
    }
  }

  /** A string starts with `w` when its head and tail match `w`'s. */
  lemma StartsWithCons(s: String, w: String)
    requires |s| > 0 && |w| > 0 && s[0] == w[0] && StartsWith(s[1..], w[1..])
    ensures StartsWith(s, w)
  {
    assert s[..|w|] == [s[0]] + s[1..][..|w| - 1];
  }

  lemma {:induction false} ContainsIsLongEnough(s: String, n: String)
    requires Contains(s, n)
    ensures |n| <= |s|
    decreases |s|
  {
    if !StartsWith(s, n) {
      ContainsIsLongEnough(s[1..], n);
    }
  }

  /** Every character of an occurring block is a character of `s`. */
  lemma {:induction false} ContainsChars(s: String, n: String, c: char)
    requires Contains(s, n) && c in n
    ensures c in s
    decreases |s|
  {
    if StartsWith(s, n) {
      var i :| 0 <= i < |n| && n[i] == c;
      assert s[i] == c;
    } else {
      ContainsChars(s[1..], n, c);
      var j :| 0 <= j < |s[1..]| && s[1..][j] == c;
      assert s[j + 1] == c;
    }
  }

  /** A block found in a suffix is found in the whole string. */
  lemma {:induction false} ContainsInSuffix(s: String, k: nat, n: String)
    requires k <= |s| && Contains(s[k..], n)
    ensures Contains(s, n)
    decreases k
  {
    if k > 0 {
      assert s[1..][k - 1..] == s[k..];
      ContainsInSuffix(s[1..], k - 1, n);
    }
  }

  /** A block whose first character is absent from `a` cannot start in `a`. */
  lemma {:induction false} ContainsSkip(a: String, b: String, n: String)
    requires |n| > 0 && n[0] !in a && Contains(a + b, n)
    ensures Contains(b, n)
    decreases |a|
  {
    if |a| > 0 {
      assert (a + b)[0] == a[0];
      assert (a + b)[1..] == a[1..] + b;
      ContainsSkip(a[1..], b, n);
    } else {
      assert a + b == b;
    }
  }

  /** A leading occurrence of the needle is replaced. */
  lemma ReplaceAllLead(n: String, s: String, r: String)
    requires |n| > 0
    ensures ReplaceAll(n + s, n, r) == r + ReplaceAll(s, n, r)
  {
    assert (n + s)[..|n|] == n;
    assert (n + s)[|n|..] == s;
  }

  /** Text in front that cannot start the needle passes through unchanged. */
  lemma {:induction false} ReplaceAllSkip(a: String, b: String, n: String, r: String)
    requires |n| > 0 && n[0] !in a
    ensures ReplaceAll(a + b, n, r) == a + ReplaceAll(b, n, r)
    decreases |a|
  {
    if |a| > 0 {
      if |a + b| < |n| {
        assert |b| < |n|;
      } else {
        assert (a + b)[..|n|][0] == a[0];
        assert (a + b)[1..] == a[1..] + b;
        ReplaceAllSkip(a[1..], b, n, r);
        assert a == [a[0]] + a[1..];
      }
    } else {
      assert a + b == b;
    }
  }

  /** One step of the scan at a match. */
  lemma ReplaceAllMatchStep(s: String, n: String, r: String)
    requires 0 < |n| <= |s| && s[..|n|] == n
    ensures ReplaceAll(s, n, r) == r + ReplaceAll(s[|n|..], n, r)
  {
  }

  /** One step of the scan where no match starts. */
  lemma ReplaceAllMissStep(s: String, n: String, r: String)
    requires 0 < |n| <= |s| && s[..|n|] != n
    ensures ReplaceAll(s, n, r) == [s[0]] + ReplaceAll(s[1..], n, r)
  {
  }

  /** Replacing in two pieces is replacing in the whole when no occurrence
      can straddle the seam: the second piece does not start with a
      character the needle has after its first. */
  lemma {:induction false} ReplaceAllConcat(a: String, b: String, n: String, r: String)
    requires |n| > 0
    requires |b| == 0 || b[0] !in n[1..]
    ensures ReplaceAll(a + b, n, r) == ReplaceAll(a, n, r) + ReplaceAll(b, n, r)
    decreases |a|
  {
    var s := a + b;
    if |a| == 0 {
      assert s == b;
    } else if |a| >= |n| {
      assert s[..|n|] == a[..|n|];
      if a[..|n|] == n {
        assert s[|n|..] == a[|n|..] + b;
        ReplaceAllMatchStep(s, n, r);
        ReplaceAllMatchStep(a, n, r);
        ReplaceAllConcat(a[|n|..], b, n, r);
        ConcatAssoc(r, ReplaceAll(a[|n|..], n, r), ReplaceAll(b, n, r));
      } else {
        assert s[1..] == a[1..] + b;
        ReplaceAllMissStep(s, n, r);
        ReplaceAllMissStep(a, n, r);
        ReplaceAllConcat(a[1..], b, n, r);
        ConcatAssoc([a[0]], ReplaceAll(a[1..], n, r), ReplaceAll(b, n, r));
      }
    } else if |s| < |n| {
      assert ReplaceAll(b, n, r) == b;
    } else {
      ConcatShort(a, b, n, r);
    }
  }

  /** The case of ReplaceAllConcat where the first piece is shorter than
      the needle but the whole is not. */
  lemma {:induction false} ConcatShort(a: String, b: String, n: String, r: String)
    requires 0 < |a| < |n| <= |a + b|
    requires b[0] !in n[1..]
    ensures ReplaceAll(a + b, n, r) == a + ReplaceAll(b, n, r)
    decreases |a|
  {
    var s := a + b;
    assert s[|a|] == b[0] && n[|a|] == n[1..][|a| - 1];
    assert s[..|n|][|a|] != n[|a|];
    assert s[1..] == a[1..] + b;
    ReplaceAllMissStep(s, n, r);
    if |a| == 1 {
      assert s[1..] == b;
    } else if |s| - 1 < |n| {
      assert ReplaceAll(b, n, r) == b;
    } else {
      ConcatShort(a[1..], b, n, r);
    }
    ConcatAssoc([a[0]], a[1..], ReplaceAll(b, n, r));
    assert a == [a[0]] + a[1..];
  }

  /** An occurrence written between two pieces becomes the replacement and
      splits the work in two, provided the needle's first character does
      not occur again inside it. */
  lemma ReplaceAllSplit(a: String, b: String, n: String, r: String)
    requires |n| > 0 && n[0] !in n[1..]
    ensures ReplaceAll(a + n + b, n, r) == ReplaceAll(a, n, r) + r + ReplaceAll(b, n, r)
  {
    assert a + n + b == a + (n + b);
    assert (n + b)[0] == n[0];
    ReplaceAllConcat(a, n + b, n, r);
    ReplaceAllLead(n, b, r);
  }

  /** Output that begins at a replaced spot begins with the replacement. */
  lemma ReplaceAllHead(x: String, n: String, r: String)
    requires 0 < |n| <= |x| && x[..|n|] == n && |r| > 0
    ensures |ReplaceAll(x, n, r)| > 0 && ReplaceAll(x, n, r)[0] == r[0]
  {
  }

  /** If the output starts with text sharing no character with the
      (non-empty) replacement, the input starts with that same text. */
  lemma {:induction false} ReplaceAllPrefix(x: String, n: String, r: String, w: String)
    requires |n| > 0 && |r| > 0 && Disjoint(w, r)
    requires StartsWith(ReplaceAll(x, n, r), w)
    ensures StartsWith(x, w)
    decreases |x|
  {
    if |w| == 0 || |x| < |n| {
    } else {
      var out := ReplaceAll(x, n, r);
      assert out[0] == w[0] && w[0] !in r;
      if x[..|n|] == n {
        ReplaceAllHead(x, n, r);
        assert false;
      } else {
        var rest := ReplaceAll(x[1..], n, r);
        assert out == [x[0]] + rest;
        assert rest[..|w| - 1] == w[1..];
        ReplaceAllPrefix(x[1..], n, r, w[1..]);
        assert x[..|w|] == [x[0]] + x[1..][..|w| - 1];
      }
    }
  }

  /** When the replacement shares no character with the needle, no
      occurrence of the needle survives, not even one formed across a
      replaced spot. */
  lemma {:induction false} ReplaceAllRemoves(s: String, n: String, r: String)
    requires |n| > 0 && |r| > 0 && Disjoint(n, r)
    ensures !Contains(ReplaceAll(s, n, r), n)
    decreases |s|
  {
    var out := ReplaceAll(s, n, r);
    if |s| < |n| {
      if Contains(out, n) {
        ContainsIsLongEnough(out, n);
      }
    } else if s[..|n|] == n {
      var rest := ReplaceAll(s[|n|..], n, r);
      ReplaceAllRemoves(s[|n|..], n, r);
      if Contains(out, n) {
        ContainsSkip(r, rest, n);
      }
    } else {
      var rest := ReplaceAll(s[1..], n, r);
      ReplaceAllRemoves(s[1..], n, r);
      assert out == [s[0]] + rest;
      assert out[1..] == rest;
      assert s[..|n|] == [s[0]] + s[1..][..|n| - 1];
      if StartsWith(out, n) {
        assert rest[..|n| - 1] == n[1..];
        ReplaceAllPrefix(s[1..], n, r, n[1..]);
        assert false;
      }
    }
  }

  /** Replacing with text that shares no character with `m` creates no new
      occurrence of `m`. */
  lemma {:induction false} ReplaceAllCreatesNothing(s: String, n: String, r: String, m: String)
    requires |n| > 0 && |r| > 0 && |m| > 0 && Disjoint(m, r)
    requires !Contains(s, m)
    ensures !Contains(ReplaceAll(s, n, r), m)
    decreases |s|
  {
    var out := ReplaceAll(s, n, r);
    if |s| < |n| {
    } else if s[..|n|] == n {
      var rest := ReplaceAll(s[|n|..], n, r);
      if Contains(s[|n|..], m) {
        ContainsInSuffix(s, |n|, m);
      }
      ReplaceAllCreatesNothing(s[|n|..], n, r, m);
      if Contains(out, m) {
        ContainsSkip(r, rest, m);
      }
    } else {
      var rest := ReplaceAll(s[1..], n, r);
      ReplaceAllCreatesNothing(s[1..], n, r, m);
      assert out == [s[0]] + rest;
      assert out[1..] == rest;
      if StartsWith(out, m) {
        assert rest[..|m| - 1] == m[1..];
        ReplaceAllPrefix(s[1..], n, r, m[1..]);
        StartsWithCons(s, m);
        assert false;
      }
    }
  }

  // ---------------------------------------------------------------------
  // rtrim($s, $c) and ltrim($s, $c)
  // ---------------------------------------------------------------------

  /** The longest prefix of `s` that does not end in `c`; everything cut
      off is `c`. */
  function RTrim(s: String, c: char): (r: String)
    ensures StartsWith(s, r)
    ensures AllAre(s[|r|..], c)
    ensures |r| == 0 || r[|r| - 1] != c
    decreases |s|
  {
    if |s| > 0 && s[|s| - 1] == c then RTrim(s[..|s| - 1], c) else s
  }

  /** The longest suffix of `s` that does not start with `c`; everything cut
      off is `c`. */
  function LTrim(s: String, c: char): (r: String)
    ensures EndsWith(s, r)
    ensures AllAre(s[..|s| - |r|], c)
    ensures |r| == 0 || r[0] != c
    decreases |s|
  {
    if |s| > 0 && s[0] == c then
      var r := LTrim(s[1..], c);
      LTrimStep(s, c, r);
      r
    else s
  }

  /** Cutting one more leading `c` keeps the left-trim's contract. */
  lemma LTrimStep(s: String, c: char, r: String)
    requires |s| > 0 && s[0] == c
    requires EndsWith(s[1..], r) && AllAre(s[1..][..|s| - 1 - |r|], c)
    ensures EndsWith(s, r) && AllAre(s[..|s| - |r|], c)
  {
    assert s[..|s| - |r|] == [s[0]] + s[1..][..|s| - 1 - |r|];
    assert s[|s| - |r|..] == s[1..][|s| - 1 - |r|..];
  }

  /** A string that does not end in `c` is its own right-trim. */
  lemma RTrimNoTrailing(s: String, c: char)
    requires |s| > 0 && s[|s| - 1] != c
    ensures RTrim(s, c) == s
  {
  }

  /** A string that does not start with `c` is its own left-trim. */
  lemma LTrimNoLeading(s: String, c: char)
    requires |s| > 0 && s[0] != c
    ensures LTrim(s, c) == s
  {
  }

  /** Trailing runs of `c` of any length trim to the same text. */
  lemma {:induction false} RTrimIgnoresTrailing(s: String, c: char, k: nat)
    ensures RTrim(s + Repeat(c, k), c) == RTrim(s, c)
    decreases k
  {
    if k > 0 {
      var s' := s + Repeat(c, k);
      assert s'[|s'| - 1] == c;
      assert s'[..|s'| - 1] == s + Repeat(c, k - 1);
      RTrimIgnoresTrailing(s, c, k - 1);
    } else {
      assert s + Repeat(c, k) == s;
    }
  }

  /** Leading runs of `c` of any length trim to the same text. */
  lemma {:induction false} LTrimIgnoresLeading(s: String, c: char, k: nat)
    ensures LTrim(Repeat(c, k) + s, c) == LTrim(s, c)
    decreases k
  {
    if k > 0 {
      var s' := Repeat(c, k) + s;
      assert s'[0] == c;
      assert s'[1..] == Repeat(c, k - 1) + s;
      LTrimIgnoresLeading(s, c, k - 1);
    } else {
      assert Repeat(c, k) + s == s;
    }
  }

  // ---------------------------------------------------------------------
  // The part after the last occurrence of a character
  // ---------------------------------------------------------------------

  /** The longest suffix of `s` free of `c`: everything after the last `c`,
      or all of `s` when `c` does not occur. */
  function AfterLast(s: String, c: char): (r: String)
    ensures c !in r
    ensures EndsWith(s, r)
    ensures c in s ==> |r| < |s| && s[|s| - |r| - 1] == c
    ensures c !in s ==> r == s
    decreases |s|
  {
    if |s| == 0 then []
    else if s[|s| - 1] == c then []
    else
      var init := s[..|s| - 1];
      assert s == init + [s[|s| - 1]];
      assert c in s <==> c in init;
      AfterLast(init, c) + [s[|s| - 1]]
  }

  /** A character other than `c` added at the end joins the result. */
  lemma AfterLastSnoc(x: String, d: char, c: char)
    requires d != c
    ensures AfterLast(x + [d], c) == AfterLast(x, c) + [d]
  {
    var s := x + [d];
    assert s[..|s| - 1] == x;
  }

  /** Text appended after the last `c` belongs to the result. */
  lemma {:induction false} AfterLastAppend(a: String, b: String, c: char)
    requires c !in b
    ensures AfterLast(a + b, c) == AfterLast(a, c) + b
    decreases |b|
  {
    if |b| > 0 {
      var b', last := b[..|b| - 1], b[|b| - 1];
      assert b == b' + [last];
      assert last in b && c !in b';
      ConcatAssoc(a, b', [last]);
      AfterLastAppend(a, b', c);
      AfterLastSnoc(a + b', last, c);
      ConcatAssoc(AfterLast(a, c), b', [last]);
    } else {
      assert a + b == a;
    }
  }

  /** Cutting right after a chosen `c` with no `c` after it. */
  lemma AfterLastSplit(a: String, b: String, c: char)
    requires c !in b
    ensures AfterLast(a + [c] + b, c) == b
  {
    AfterLastAppend(a + [c], b, c);
  }
}
