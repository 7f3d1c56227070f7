/**
 * The `OptimizedImage` component: which source it asks for (WebP instead of
 * JPEG, GIFs untouched), the loading attributes it sets, and the `onError`
 * fallback to the original source.
 */
module OptimizedImage {
  import opened Wrappers
  import opened Text

  datatype Loading = Eager | Lazy
  datatype Decoding = Sync | Async
  datatype FetchPriority = High | Auto

  /** The component's props; absent optional props are `None`. */
  datatype Props = Props(
    alt: string,
    className: Option<string>,
    height: Option<int>,
    loading: Option<Loading>,
    priority: Option<bool>,
    src: string,
    width: Option<int>)

  /** The attributes of the rendered `<img>`. */
  datatype ImgAttributes = ImgAttributes(
    alt: string,
    className: Option<string>,
    decoding: Decoding,
    fetchPriority: FetchPriority,
    height: Option<int>,
    loading: Loading,
    sizes: string,
    src: string,
    width: Option<int>)

  /** `src.toLowerCase().endsWith('.gif')` */
  predicate IsGif(src: string) {
    EndsWith(ToLowerAscii(src), ".gif")
  }

  /** `src.replace(/\.(jpe?g)$/, '.webp')` */
  function ReplaceJpegSuffix(src: string): string {
    if EndsWith(src, ".jpeg") then src[..|src| - 5] + ".webp"
    else if EndsWith(src, ".jpg") then src[..|src| - 4] + ".webp"
    else src
  }

  /** `isGif ? src : src.replace(/\.(jpe?g)$/, '.webp')` */
  function WebpSrc(src: string): string {
    if IsGif(src) then src else ReplaceJpegSuffix(src)
  }

  /**
   * What the image requests: a GIF (any letter case) unchanged; a trailing
   * lowercase '.jpg' or '.jpeg' swapped for '.webp' with the stem kept; any
   * other source, including '.JPG', unchanged.
   */
  lemma WebpSrcCases(src: string)
    ensures var w := WebpSrc(src);
      && (IsGif(src) ==> w == src)
      && (!IsGif(src) && EndsWith(src, ".jpeg") ==> w == src[..|src| - 5] + ".webp")
      && (!IsGif(src) && !EndsWith(src, ".jpeg") && EndsWith(src, ".jpg") ==> w == src[..|src| - 4] + ".webp")
      && (!EndsWith(src, ".jpeg") && !EndsWith(src, ".jpg") ==> w == src)
      && (w != src ==> EndsWith(w, ".webp") && !IsGif(src))
  {
    var w := WebpSrc(src);
    if w != src {
      assert w[|w| - 5..] == ".webp";
    }
  }

  /** A GIF never ends in a lowercase '.jpg' or '.jpeg', so the GIF test only guards. */
  lemma GifIsNeverJpeg(src: string)
    requires IsGif(src)
    ensures !EndsWith(src, ".jpg") && !EndsWith(src, ".jpeg")
  {
    var l := ToLowerAscii(src);
    assert l[|src| - 1] == 'f';
  }

  /** The `<img>` attributes rendered for the props (lines 17 and 23-35 of the component). */
  function Render(p: Props): (a: ImgAttributes)
    ensures a.src == WebpSrc(p.src)
    ensures a.alt == p.alt && a.className == p.className && a.height == p.height && a.width == p.width
  {
    var priority := p.priority == Some(true);
    var loading := if p.loading.Some? then p.loading.value else Lazy;
    ImgAttributes(
      alt := p.alt,
      className := p.className,
      decoding := if priority then Sync else Async,
      fetchPriority := if priority then High else (if loading == Eager then High else Auto),
      height := p.height,
      loading := if priority then Eager else loading,
      sizes := if p.width.Some? && p.width.value != 0 then IntToString(p.width.value) + "px" else "100vw",
      src := WebpSrc(p.src),
      width := p.width)
  }

  /** `priority` forces synchronous decoding, eager loading and high fetch priority. */
  lemma PriorityForcesEager(p: Props)
    requires p.priority == Some(true)
    ensures Render(p).decoding == Sync && Render(p).loading == Eager && Render(p).fetchPriority == High
  {
  }

  /**
   * Whatever the props, the fetch priority is high exactly when the image
   * loads eagerly; without `priority` decoding is asynchronous and loading
   * follows the prop, defaulting to lazy.
   */
  lemma FetchPriorityFollowsLoading(p: Props)
    ensures Render(p).fetchPriority == High <==> Render(p).loading == Eager
    ensures Render(p).decoding == Sync <==> p.priority == Some(true)
    ensures p.priority != Some(true) && p.loading.None? ==> Render(p).loading == Lazy && Render(p).fetchPriority == Auto
    ensures p.priority != Some(true) && p.loading.Some? ==> Render(p).loading == p.loading.value
  {
  }

  /** `sizes` is the pixel width when a non-zero width is given, and the viewport width otherwise. */
  lemma SizesFromWidth(p: Props)
    ensures p.width.Some? && p.width.value > 0 ==>
      Render(p).sizes == NatToString(p.width.value) + "px"
    ensures p.width.None? || p.width == Some(0) ==> Render(p).sizes == "100vw"
    ensures EndsWith(Render(p).sizes, "px") <==> p.width.Some? && p.width.value != 0
  {
    var s := Render(p).sizes;
    if p.width.Some? && p.width.value != 0 {
      assert s[|s| - 2..] == "px";
    } else {
      assert s[|s| - 2..] == "vw";
    }
  }

  /**
   * The mounted `<img>` element together with the component's `onError`
   * closure (its `src` prop and `isGif`). Reading `img.src` gives the URL
   * resolved against the document (`resolve`), not the attribute as written.
   * React attaches `onError` as an event listener, so the listener stays in
   * place whatever the element's `onerror` property holds: the handler's
   * `target.onerror = null` changes nothing here and is not modelled.
   */
  class ImageElement {
    const original: string
    const isGif: bool
    const resolve: string -> string
    /** What `img.src` reads. */
    var src: string
    /** How many times the handler has switched the image back to the original. */
    var fallbacks: nat

    constructor (p: Props, resolve: string -> string)
      ensures original == p.src && isGif == IsGif(p.src) && this.resolve == resolve
      ensures src == resolve(WebpSrc(p.src)) && fallbacks == 0
    {
      original := p.src;
      isGif := IsGif(p.src);
      this.resolve := resolve;
      src := resolve(WebpSrc(p.src));
      fallbacks := 0;
    }

    /**
     * The `onError` handler as written: for a non-GIF whose `img.src`
     * differs from the `src` prop, clear `onerror` and switch to the original.
     */
    method OnErrorAsWritten()
      modifies this
      ensures if !isGif && old(src) != original
        then src == resolve(original) && fallbacks == old(fallbacks) + 1
        else src == old(src) && fallbacks == old(fallbacks)
    {
      if !isGif && src != original {
          src := resolve(original);
        fallbacks := fallbacks + 1;
      }
    }

    /** Once switched to the original, the element shows the original. */
    ghost predicate Valid()
      reads this
    {
      fallbacks <= 1 && (fallbacks == 1 ==> src == resolve(original))
    }

    /**
     * The handler as intended: compare against the original resolved the way
     * `img.src` is, so that a second error leaves the element alone.
     */
    method OnError()
      requires Valid()
      modifies this
      ensures Valid()
      ensures if !isGif && old(src) != resolve(original)
        then src == resolve(original) && fallbacks == old(fallbacks) + 1
        else src == old(src) && fallbacks == old(fallbacks)
    {
      if !isGif && src != resolve(original) {
          src := resolve(original);
        fallbacks := fallbacks + 1;
      }
    }
  }

  /**
   * As written, a relative source (which `img.src` reads back as an absolute
   * URL) falls back again on every error: two errors, two fallbacks.
   */
  method RelativeSourceFallsBackTwice(p: Props, resolve: string -> string) returns (fallbacks: nat)
    requires !IsGif(p.src) && resolve(p.src) != p.src && resolve(WebpSrc(p.src)) != p.src
    ensures fallbacks == 2
  {
    var img := new ImageElement(p, resolve);
    img.OnErrorAsWritten();
    img.OnErrorAsWritten();
    fallbacks := img.fallbacks;
  }

  /** With the intended comparison, any number of errors falls back at most once. */
  method ErrorsFallBackAtMostOnce(p: Props, resolve: string -> string, errors: nat) returns (fallbacks: nat)
    ensures fallbacks <= 1
    ensures fallbacks == 1 <==> errors > 0 && !IsGif(p.src) && resolve(WebpSrc(p.src)) != resolve(p.src)
  {
    var img := new ImageElement(p, resolve);
    var i := 0;
    while i < errors
      invariant 0 <= i <= errors
      invariant img.Valid() && img.original == p.src && img.isGif == IsGif(p.src) && img.resolve == resolve
      invariant i == 0 ==> img.fallbacks == 0 && img.src == resolve(WebpSrc(p.src))
      invariant i > 0 ==> (img.fallbacks == 1 <==> !IsGif(p.src) && resolve(WebpSrc(p.src)) != resolve(p.src))
      invariant i > 0 && img.fallbacks == 0 ==> img.src == resolve(WebpSrc(p.src))
    {
      img.OnError();
      i := i + 1;
    }
    fallbacks := img.fallbacks;
  }
}
