/** `optimizeImageUrl`: drop the query string and serve `.jpeg` images as `.webp`. */
module ImageUrl {
  import opened Text

  /** `s.replace(/\.jpeg$/, '.webp')`: the anchored, case-sensitive suffix rewrite. */
  function ReplaceTrailingJpeg(s: string): string {
    if EndsWith(s, ".jpeg") then s[..|s| - 5] + ".webp" else s
  }

  /** `url.split('?')[0].replace(/\.jpeg$/, '.webp')` */
  function OptimizeImageUrl(url: string): string {
    ReplaceTrailingJpeg(TakeUntil(url, '?'))
  }

  /**
   * The result has no query: it is the part of the URL before the first '?',
   * with a trailing '.jpeg' turned into '.webp', and never longer than the URL.
   */
  lemma OptimizeStripsQuery(url: string)
    ensures var r := OptimizeImageUrl(url);
      && '?' !in r
      && |r| <= |url|
      && |r| == |TakeUntil(url, '?')|
      && ('?' in url ==> url[|r|] == '?')
  {
    var p := TakeUntil(url, '?');
    if EndsWith(p, ".jpeg") {
      var stem := p[..|p| - 5];
      assert OptimizeImageUrl(url) == stem + ".webp";
      assert stem == url[..|stem|];
      assert '?' !in stem;
    }
  }

  /** A trailing lowercase '.jpeg' (before any query) becomes '.webp'; the rest is kept. */
  lemma OptimizeJpeg(url: string)
    requires EndsWith(TakeUntil(url, '?'), ".jpeg")
    ensures var p := TakeUntil(url, '?'); var r := OptimizeImageUrl(url);
      && EndsWith(r, ".webp") && !EndsWith(r, ".jpeg")
      && r[..|r| - 5] == p[..|p| - 5]
  {
    var p := TakeUntil(url, '?');
    var r := OptimizeImageUrl(url);
    assert r[|r| - 5..] == ".webp";
  }

  /** Any other ending ('.jpg', '.JPEG', a '.jpeg' that is not last) is left as it is. */
  lemma OptimizeKeepsOtherEndings(url: string)
    requires !EndsWith(TakeUntil(url, '?'), ".jpeg")
    ensures OptimizeImageUrl(url) == TakeUntil(url, '?')
  {
  }

  /** `a.jpeg?w=1` becomes `a.webp`. */
  lemma OptimizeExample()
    ensures OptimizeImageUrl("a.jpeg?w=1") == "a.webp"
  {
    var s := "a.jpeg?w=1";
    var p := TakeUntil(s, '?');
    assert s[6] == '?' && '?' !in s[..6];
    assert p == "a.jpeg";
  }

  /** Optimising an optimised URL changes nothing. */
  lemma OptimizeIdempotent(url: string)
    ensures OptimizeImageUrl(OptimizeImageUrl(url)) == OptimizeImageUrl(url)
  {
    var r := OptimizeImageUrl(url);
    OptimizeStripsQuery(url);
    TakeUntilAbsent(r, '?');
    var p := TakeUntil(url, '?');
    if EndsWith(p, ".jpeg") {
      OptimizeJpeg(url);
    }
  }
}
