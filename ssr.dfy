/**
 * The server-side rendering route: which files under the public image
 * directories become `<link>` hints in the page head, the cache headers the
 * static handler adds to image responses, and the favicon route. Directory
 * listings are inputs; paths are lists of segments joined with '/'.
 */
module Ssr {
  import opened Wrappers
  import opened Text

  /** A directory entry from `readdirSync(parent, { withFileTypes: true })`. */
  datatype Dirent = Dirent(name: string, isFile: bool)

  /** The `getFiles` filter: regular files whose names do not start with '.'. */
  predicate Listed(d: Dirent) {
    d.isFile && !StartsWith(d.name, ".")
  }

  function ListedEntries(dirents: seq<Dirent>): (r: seq<Dirent>)
    ensures |r| <= |dirents|
  {
    if dirents == [] then []
    else (if Listed(dirents[0]) then [dirents[0]] else []) + ListedEntries(dirents[1..])
  }

  /** `getFiles` keeps exactly the listed entries, in directory order. */
  lemma {:induction false} ListedEntriesExactly(dirents: seq<Dirent>)
    ensures forall d :: d in ListedEntries(dirents) <==> d in dirents && Listed(d)
    ensures forall i :: 0 <= i < |ListedEntries(dirents)| ==> Listed(ListedEntries(dirents)[i])
  {
    if dirents != [] {
      ListedEntriesExactly(dirents[1..]);
      assert dirents == [dirents[0]] + dirents[1..];
    }
  }

  /** `getFilePaths(relativePath, rootDir)`: '/' followed by the file's path relative to the root. */
  function GetFilePaths(relativeDir: seq<string>, dirents: seq<Dirent>): (r: seq<string>)
    ensures |r| == |ListedEntries(dirents)|
    ensures forall i :: 0 <= i < |r| ==> r[i] == "/" + Join(relativeDir + [ListedEntries(dirents)[i].name], "/")
  {
    var files := ListedEntries(dirents);
    seq(|files|, i requires 0 <= i < |files| => "/" + Join(relativeDir + [files[i].name], "/"))
  }

  /** `imagePaths`: images, then animations, then logos. */
  function ImagePaths(images: seq<Dirent>, animations: seq<Dirent>, logos: seq<Dirent>): seq<string> {
    GetFilePaths(["public", "images"], images)
      + GetFilePaths(["public", "animations"], animations)
      + GetFilePaths(["public", "logos"], logos)
  }

  /** Every image path lies under its own public directory. */
  lemma ImagePathsUnderPublic(images: seq<Dirent>, animations: seq<Dirent>, logos: seq<Dirent>, i: nat)
    requires i < |ImagePaths(images, animations, logos)|
    ensures var n1 := |ListedEntries(images)|; var n2 := |ListedEntries(animations)|;
      var p := ImagePaths(images, animations, logos)[i];
      && (i < n1 ==> StartsWith(p, "/public/images/"))
      && (n1 <= i < n1 + n2 ==> StartsWith(p, "/public/animations/"))
      && (n1 + n2 <= i ==> StartsWith(p, "/public/logos/"))
  {
    var a := GetFilePaths(["public", "images"], images);
    var b := GetFilePaths(["public", "animations"], animations);
    var c := GetFilePaths(["public", "logos"], logos);
    var p := ImagePaths(images, animations, logos)[i];
    assert p == (a + b + c)[i];
    if i < |a| {
      PathUnder("images", "/public/images/", images, i);
      ConcatAt(a, b, c, i);
    } else if i < |a| + |b| {
      PathUnder("animations", "/public/animations/", animations, i - |a|);
      ConcatAt(a, b, c, i);
    } else {
      PathUnder("logos", "/public/logos/", logos, i - |a| - |b|);
      ConcatAt(a, b, c, i);
    }
  }

  lemma ConcatAt(a: seq<string>, b: seq<string>, c: seq<string>, i: nat)
    requires i < |a| + |b| + |c|
    ensures (a + b + c)[i] == if i < |a| then a[i] else if i < |a| + |b| then b[i - |a|] else c[i - |a| - |b|]
  {
  }

  lemma PathUnder(dir: string, prefix: string, dirents: seq<Dirent>, j: nat)
    requires prefix == "/public/" + dir + "/"
    requires j < |ListedEntries(dirents)|
    ensures StartsWith(GetFilePaths(["public", dir], dirents)[j], prefix)
  {
    var name := ListedEntries(dirents)[j].name;
    JoinThree("public", dir, name);
    var p := GetFilePaths(["public", dir], dirents)[j];
    assert p == prefix + name;
  }

  lemma JoinThree(a: string, b: string, c: string)
    ensures "/" + Join([a, b] + [c], "/") == "/" + a + "/" + b + "/" + c
  {
    var parts := [a, b] + [c];
    assert parts == [a, b, c];
    assert parts[1..] == [b, c];
    assert parts[1..][1..] == [c];
    assert Join([c], "/") == c;
    assert Join([b, c], "/") == b + "/" + c;
    assert Join(parts, "/") == a + "/" + (b + "/" + c);
  }

  /** The `setHeaders` test: a case-sensitive `endsWith` chain. */
  predicate EndsWithImageExtension(path: string) {
    EndsWith(path, ".webp") || EndsWith(path, ".jpg") || EndsWith(path, ".jpeg")
      || EndsWith(path, ".png") || EndsWith(path, ".gif") || EndsWith(path, ".svg")
  }

  /** The alternatives of the group `(webp|jpe?g|png|gif|svg)`, each running to the end `$`. */
  predicate Alternative(s: string) {
    s == "webp" || s == "jpg" || s == "jpeg" || s == "png" || s == "gif" || s == "svg"
  }

  /** `/\.(webp|jpe?g|png|gif|svg)$/` matches at position `i`: a dot, then one alternative ending the input. */
  predicate MatchesAt(path: string, i: nat) {
    i < |path| && path[i] == '.' && Alternative(path[i + 1..])
  }

  /** `path.match(/\.(webp|jpe?g|png|gif|svg)$/)` succeeds: some start position matches. */
  predicate MatchesImageRegex(path: string) {
    exists i: nat :: i <= |path| && MatchesAt(path, i)
  }

  /** The link filter and the header rule accept the same paths. */
  lemma RegexAgreesWithHeaderRule(path: string)
    ensures MatchesImageRegex(path) <==> EndsWithImageExtension(path)
  {
    if MatchesImageRegex(path) {
      var i: nat :| i <= |path| && MatchesAt(path, i);
      MatchIsSuffix(path, i);
    }
    if EndsWithImageExtension(path) {
      if EndsWith(path, ".webp") { SuffixMatches(path, ".webp"); }
      else if EndsWith(path, ".jpg") { SuffixMatches(path, ".jpg"); }
      else if EndsWith(path, ".jpeg") { SuffixMatches(path, ".jpeg"); }
      else if EndsWith(path, ".png") { SuffixMatches(path, ".png"); }
      else if EndsWith(path, ".gif") { SuffixMatches(path, ".gif"); }
      else { SuffixMatches(path, ".svg"); }
    }
  }

  lemma MatchIsSuffix(path: string, i: nat)
    requires MatchesAt(path, i)
    ensures EndsWithImageExtension(path)
  {
    var ext := path[i..];
    assert ext == "." + path[i + 1..];
    assert EndsWith(path, ext) by {
      assert path[|path| - |ext|..] == ext;
    }
    assert ext == ".webp" || ext == ".jpg" || ext == ".jpeg" || ext == ".png" || ext == ".gif" || ext == ".svg";
  }

  lemma SuffixMatches(path: string, ext: string)
    requires EndsWith(path, ext) && |ext| >= 1 && ext[0] == '.' && Alternative(ext[1..])
    ensures MatchesImageRegex(path)
  {
    var i := |path| - |ext|;
    assert path[i..] == ext;
    assert path[i + 1..] == ext[1..];
    assert MatchesAt(path, i);
  }

  /** The pieces of the two link tags around the image path. */
  const PreloadRel: string := "<link rel=\"preload\""
  const PreloadAs: string := " as=\"fetch\""
  const PreloadHref: string := " fetchpriority=\"high\" href=\""
  const PreloadOpen: string := PreloadRel + PreloadAs + PreloadHref
  const PrefetchOpen: string := "<link rel=\"prefetch\" href=\""
  const TagClose: string := "\" />"

  /** The hint for one image path: thumbnails are preloaded, everything else prefetched. */
  function LinkTag(imagePath: string): string {
    if Contains(imagePath, "thumbnail") then PreloadOpen + imagePath + TagClose
    else PrefetchOpen + imagePath + TagClose
  }

  function KeptImagePaths(paths: seq<string>): (r: seq<string>)
    ensures |r| <= |paths|
    ensures forall p :: p in r ==> p in paths && MatchesImageRegex(p)
  {
    if paths == [] then []
    else (if MatchesImageRegex(paths[0]) then [paths[0]] else []) + KeptImagePaths(paths[1..])
  }

  /** The tags, one per kept path. */
  function LinkTags(paths: seq<string>): (r: seq<string>)
    ensures |r| == |KeptImagePaths(paths)|
  {
    var kept := KeptImagePaths(paths);
    seq(|kept|, i requires 0 <= i < |kept| => LinkTag(kept[i]))
  }

  /** The head fragment: the tags joined by newlines. */
  function LinkTagsHtml(paths: seq<string>): string {
    Join(LinkTags(paths), "\n")
  }

  /** A path is kept exactly when it ends in an image extension. */
  lemma {:induction false} KeptExactlyImages(paths: seq<string>)
    ensures forall p :: p in KeptImagePaths(paths) <==> p in paths && EndsWithImageExtension(p)
  {
    if paths != [] {
      KeptExactlyImages(paths[1..]);
      RegexAgreesWithHeaderRule(paths[0]);
      assert paths == [paths[0]] + paths[1..];
    }
  }

  /** A tag is a preload hint exactly when its path mentions "thumbnail". */
  lemma PreloadExactlyThumbnails(imagePath: string)
    ensures StartsWith(LinkTag(imagePath), "<link rel=\"preload\"") <==> Contains(imagePath, "thumbnail")
  {
    var pre := "<link rel=\"preload\"";
    var tag := LinkTag(imagePath);
    if Contains(imagePath, "thumbnail") {
      assert tag == pre + (PreloadAs + PreloadHref + imagePath + TagClose);
    } else {
      assert tag == PrefetchOpen + (imagePath + TagClose);
      assert tag[14] == PrefetchOpen[14] == 'f';
      assert pre[14] == 'l';
    }
  }

  /**
   * When no path holds a newline, splitting the fragment at newlines gives
   * back exactly one tag per kept path, in order.
   */
  lemma OneTagPerLine(paths: seq<string>)
    requires forall p :: p in paths ==> '\n' !in p
    requires |KeptImagePaths(paths)| >= 1
    ensures Split(LinkTagsHtml(paths), '\n') == LinkTags(paths)
  {
    var tags := LinkTags(paths);
    forall i | 0 <= i < |tags|
      ensures '\n' !in tags[i]
    {
      var p := KeptImagePaths(paths)[i];
      assert p in KeptImagePaths(paths);
      NoNewlineInTag(p);
    }
    SplitJoin(tags, '\n');
  }

  lemma NoNewlineInTag(p: string)
    requires '\n' !in p
    ensures '\n' !in LinkTag(p)
  {
    NoNewlineLiteral(PrefetchOpen);
    NoNewlineLiteral(TagClose);
    NoNewlineLiteral(PreloadRel);
    NoNewlineLiteral(PreloadAs);
    NoNewlineLiteral(PreloadHref);
    NoNewlineConcat(PreloadRel, PreloadAs, PreloadHref);
    if Contains(p, "thumbnail") {
      NoNewlineConcat(PreloadOpen, p, TagClose);
    } else {
      NoNewlineConcat(PrefetchOpen, p, TagClose);
    }
  }

  lemma NoNewlineConcat(a: string, b: string, c: string)
    requires '\n' !in a && '\n' !in b && '\n' !in c
    ensures '\n' !in a + b + c
  {
  }

  /** A string of printable ASCII characters holds no newline. */
  lemma NoNewlineLiteral(s: string)
    requires forall i :: 0 <= i < |s| ==> ' ' <= s[i] <= '~'
    ensures '\n' !in s
  {
  }

  /**
   * Node keeps a response's headers under their lower-cased names, so
   * `setHeader` and `getHeader` treat names case-insensitively.
   */
  predicate LowerCaseNames(h: map<string, string>) {
    forall k :: k in h ==> ToLowerAscii(k) == k
  }

  /** `getHeader(name)` */
  function HeaderValue(h: map<string, string>, name: string): Option<string> {
    var key := ToLowerAscii(name);
    if key in h then Some(h[key]) else None
  }

  /** Lower-casing a name a second time changes nothing. */
  lemma LowerIdempotent(s: string)
    ensures ToLowerAscii(ToLowerAscii(s)) == ToLowerAscii(s)
  {
    var l := ToLowerAscii(s);
    assert forall i :: 0 <= i < |l| ==> ToLowerAscii(l)[i] == LowerChar(LowerChar(s[i])) == l[i];
  }

  /** The names the source sets on image responses. */
  const CacheControl := "Cache-Control"
  const Vary := "Vary"
  const AcceptCh := "Accept-CH"
  const Connection := "Connection"
  const KeepAlive := "Keep-Alive"

  /** The headers added to image responses, under their lower-cased names. */
  const CacheHeaders: map<string, string> := map[
    ToLowerAscii(CacheControl) := "public, max-age=31536000, immutable",
    ToLowerAscii(Vary) := "Accept, Accept-Encoding",
    ToLowerAscii(AcceptCh) := "DPR, Width, Viewport-Width",
    ToLowerAscii(Connection) := "keep-alive",
    ToLowerAscii(KeepAlive) := "timeout=3000, max=1000"]

  /** The five names stay distinct once lower-cased, and their lower-cased forms are names Node would store. */
  lemma CacheHeaderNames()
    ensures |{ToLowerAscii(CacheControl), ToLowerAscii(Vary), ToLowerAscii(AcceptCh),
              ToLowerAscii(Connection), ToLowerAscii(KeepAlive)}| == 5
    ensures LowerCaseNames(CacheHeaders)
  {
    assert ToLowerAscii(Connection)[0] != ToLowerAscii(KeepAlive)[0];
    LowerIdempotent(CacheControl);
    LowerIdempotent(Vary);
    LowerIdempotent(AcceptCh);
    LowerIdempotent(Connection);
    LowerIdempotent(KeepAlive);
  }

  /** An outgoing response's headers, keyed by lower-cased name. */
  class Response {
    var headers: map<string, string>

    /** A response with no headers set yet. */
    constructor()
      ensures headers == map[]
    {
      headers := map[];
    }

    /** `setHeader(name, value)`: replaces any header of that name, whatever its case. */
    method SetHeader(name: string, value: string)
      modifies this
      ensures headers == old(headers)[ToLowerAscii(name) := value]
      ensures HeaderValue(headers, name) == Some(value)
      ensures LowerCaseNames(old(headers)) ==> LowerCaseNames(headers)
    {
      LowerIdempotent(name);
      headers := headers[ToLowerAscii(name) := value];
    }

    /** `setHeaders(res, path)`: five `setHeader` calls, in the source's order, for image paths. */
    method SetHeaders(path: string)
      modifies this
      ensures headers == WithCacheHeaders(old(headers), path)
    {
      if EndsWithImageExtension(path) {
        SetHeader(CacheControl, "public, max-age=31536000, immutable");
        SetHeader(Vary, "Accept, Accept-Encoding");
        SetHeader(AcceptCh, "DPR, Width, Viewport-Width");
        SetHeader(Connection, "keep-alive");
        SetHeader(KeepAlive, "timeout=3000, max=1000");
        SetInOrder(old(headers));
      }
    }
  }

  /** The five updates write distinct names, so together they overlay the cache headers. */
  lemma SetInOrder(h: map<string, string>)
    ensures h[ToLowerAscii(CacheControl) := "public, max-age=31536000, immutable"]
             [ToLowerAscii(Vary) := "Accept, Accept-Encoding"]
             [ToLowerAscii(AcceptCh) := "DPR, Width, Viewport-Width"]
             [ToLowerAscii(Connection) := "keep-alive"]
             [ToLowerAscii(KeepAlive) := "timeout=3000, max=1000"] == h + CacheHeaders
  {
    CacheHeaderNames();
    var chained := h[ToLowerAscii(CacheControl) := "public, max-age=31536000, immutable"]
                    [ToLowerAscii(Vary) := "Accept, Accept-Encoding"]
                    [ToLowerAscii(AcceptCh) := "DPR, Width, Viewport-Width"]
                    [ToLowerAscii(Connection) := "keep-alive"]
                    [ToLowerAscii(KeepAlive) := "timeout=3000, max=1000"];
    assert chained.Keys == (h + CacheHeaders).Keys;
    forall k | k in chained
      ensures chained[k] == (h + CacheHeaders)[k]
    {
    }
  }

  /**
   * The headers after `setHeaders`: an image response has the five cache
   * headers, replacing earlier values under any spelling of those names;
   * every other header, and every non-image response, is left as it was.
   */
  function WithCacheHeaders(headers: map<string, string>, path: string): (r: map<string, string>)
    ensures EndsWithImageExtension(path) ==>
      forall name :: ToLowerAscii(name) in CacheHeaders ==> HeaderValue(r, name) == Some(CacheHeaders[ToLowerAscii(name)])
    ensures !EndsWithImageExtension(path) ==> r == headers
    ensures forall name :: ToLowerAscii(name) !in CacheHeaders ==> HeaderValue(r, name) == HeaderValue(headers, name)
    ensures r.Keys == headers.Keys + (if EndsWithImageExtension(path) then CacheHeaders.Keys else {})
    ensures LowerCaseNames(headers) ==> LowerCaseNames(r)
  {
    CacheHeaderNames();
    if EndsWithImageExtension(path) then headers + CacheHeaders else headers
  }

  /**
   * A header set earlier under another spelling of a cache header's name is
   * replaced, not kept beside it: the response carries that name once.
   */
  lemma ImageResponseReplacesCacheControl(headers: map<string, string>, path: string)
    requires LowerCaseNames(headers)
    requires HeaderValue(headers, "CACHE-CONTROL") == Some("no-store")
    requires EndsWithImageExtension(path)
    ensures HeaderValue(WithCacheHeaders(headers, path), "CACHE-CONTROL") == Some("public, max-age=31536000, immutable")
    ensures forall k :: k in WithCacheHeaders(headers, path) && ToLowerAscii(k) == ToLowerAscii("CACHE-CONTROL") ==> k == ToLowerAscii(CacheControl)
  {
    SameLowerName("CACHE-CONTROL", CacheControl);
    CacheHeaderNames();
  }

  lemma SameLowerName(a: string, b: string)
    requires |a| == |b|
    requires forall i :: 0 <= i < |a| ==> LowerChar(a[i]) == LowerChar(b[i])
    ensures ToLowerAscii(a) == ToLowerAscii(b)
  {
  }

  /** What serves a GET request. */
  datatype Handler = NotFound | StaticFile | ServerRender

  /** The routes: the favicon is always 404, `/public/` files are static, the rest is rendered. */
  function Route(path: string): (h: Handler)
    ensures h == NotFound <==> path == "/favicon.ico"
  {
    if path == "/favicon.ico" then NotFound
    else if StartsWith(path, "/public/") then StaticFile
    else ServerRender
  }
}
