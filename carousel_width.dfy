/**
 * `useCarouselItemWidth`: the width of one carousel column, computed the way
 * CSS `repeat(auto-fill, minmax(276px, 1fr))` would lay out columns with a
 * 12px gap, in integer pixels.
 */
module CarouselWidth {
  import opened Wrappers

  const MinWidth: int := 276
  const Gap: int := 12

  /**
   * A JavaScript number as far as this computation can produce one: an
   * integer, or the infinities and NaN that a division by zero gives.
   */
  datatype JsNumber = Finite(n: int) | PosInfinity | NegInfinity | NaN

  /** `a !== b` on numbers: NaN differs from everything, itself included. */
  predicate StrictlyDiffers(a: JsNumber, b: JsNumber) {
    a.NaN? || b.NaN? || a != b
  }

  /** The measured container: `clientWidth` and the parsed left and right paddings. */
  datatype Container = Container(clientWidth: int, paddingLeft: int, paddingRight: int)

  function InnerWidth(c: Container): int {
    c.clientWidth - c.paddingLeft - c.paddingRight
  }

  /** `Math.max(0, Math.floor((innerWidth + GAP) / (MIN_WIDTH + GAP)))` */
  function ItemCount(inner: int): nat {
    if (inner + Gap) / (MinWidth + Gap) < 0 then 0 else (inner + Gap) / (MinWidth + Gap)
  }

  /**
   * `Math.floor((innerWidth + GAP) / itemCount - GAP)`; with no column the
   * division by zero gives an infinity, or NaN when the numerator is 0.
   */
  function NewWidth(inner: int): JsNumber {
    var count := ItemCount(inner);
    if count == 0 then
      if inner + Gap > 0 then PosInfinity
      else if inner + Gap < 0 then NegInfinity
      else NaN
    else Finite((inner + Gap) / count - Gap)
  }

  /**
   * When at least one minimum-width column fits, the count is the largest
   * number of 276px columns with 12px gaps that fit, and the widened columns
   * are at least 276px and still fit with their gaps.
   */
  lemma ColumnsFit(inner: int)
    requires inner >= MinWidth
    ensures var c := ItemCount(inner);
      && c >= 1
      && c * MinWidth + (c - 1) * Gap <= inner
      && (c + 1) * MinWidth + c * Gap > inner
      && NewWidth(inner).Finite?
      && NewWidth(inner).n >= MinWidth
      && c * NewWidth(inner).n + (c - 1) * Gap <= inner
  {
    var x := inner + Gap;
    var c := x / 288;
    assert c * 288 <= x < (c + 1) * 288;
    assert c >= 1;
    var q := x / c;
    DivAtLeast(x, c, 288);
    assert q * c <= x;
    assert c * (q - Gap) + (c - 1) * Gap == c * q - Gap;
  }

  lemma DivAtLeast(x: int, c: int, k: int)
    requires c > 0 && k * c <= x
    ensures x / c >= k
  {
    var q := x / c;
    assert q * c <= x < (q + 1) * c;
    assert k * c < (q + 1) * c;
    MulCancel(k, q + 1, c);
  }

  lemma MulCancel(a: int, b: int, c: int)
    requires c > 0 && a * c < b * c
    ensures a < b
  {
    assert (b - a) * c > 0;
  }

  /** Narrower than one column: no column, and the width is not a finite number. */
  lemma NarrowContainerHasNoColumn(inner: int)
    requires inner < MinWidth
    ensures ItemCount(inner) == 0
    ensures !NewWidth(inner).Finite?
    ensures inner == -Gap <==> NewWidth(inner).NaN?
  {
  }

  /**
   * The hook's state: `itemWidth` and the log of `setItemWidth` calls. The
   * resize observer is installed once, on mount, so the `updateWidth` it
   * calls is the first render's closure, which sees `itemWidth` as it was
   * then: `MIN_WIDTH`.
   */
  class CarouselItemWidth {
    var itemWidth: JsNumber
    var writes: seq<JsNumber>

    constructor ()
      ensures itemWidth == Finite(MinWidth) && writes == []
    {
      itemWidth := Finite(MinWidth);
      writes := [];
    }

    /** `setItemWidth(w)` */
    method SetItemWidth(w: JsNumber)
      modifies this
      ensures itemWidth == w && writes == old(writes) + [w]
    {
      itemWidth := w;
      writes := writes + [w];
    }

    /**
     * `updateWidth` as it runs from the observer: no container resets to
     * `MIN_WIDTH`; otherwise the new width is written when it differs from
     * the width the closure captured, which is always `MIN_WIDTH`.
     */
    method UpdateWidthAsWritten(container: Option<Container>)
      modifies this
      ensures container.None? ==> itemWidth == Finite(MinWidth) && writes == old(writes) + [Finite(MinWidth)]
      ensures container.Some? ==>
        var w := NewWidth(InnerWidth(container.value));
        if StrictlyDiffers(w, Finite(MinWidth))
        then itemWidth == w && writes == old(writes) + [w]
        else itemWidth == old(itemWidth) && writes == old(writes)
    {
      if container.None? {
        SetItemWidth(Finite(MinWidth));
        return;
      }
      var newWidth := NewWidth(InnerWidth(container.value));
      if StrictlyDiffers(newWidth, Finite(MinWidth)) {
        SetItemWidth(newWidth);
      }
    }

    /**
     * `updateWidth` as intended: compared with the current state, so after
     * every update the state is the width for the current container, and it
     * is written only when it differs.
     */
    method UpdateWidth(container: Option<Container>)
      modifies this
      ensures container.None? ==> itemWidth == Finite(MinWidth) && writes == old(writes) + [Finite(MinWidth)]
      ensures container.Some? ==> itemWidth == NewWidth(InnerWidth(container.value))
      ensures container.Some? ==>
        var w := NewWidth(InnerWidth(container.value));
        writes == if StrictlyDiffers(w, old(itemWidth)) then old(writes) + [w] else old(writes)
    {
      if container.None? {
        SetItemWidth(Finite(MinWidth));
        return;
      }
      var newWidth := NewWidth(InnerWidth(container.value));
      if StrictlyDiffers(newWidth, itemWidth) {
        SetItemWidth(newWidth);
      }
    }
  }

  /**
   * As written, growing the container to a 300px column and shrinking it back
   * to exactly one 276px column leaves the state at 300: the shrink is
   * compared with the captured 276 and skipped.
   */
  method ShrinkBackIsSkipped() returns (width: JsNumber, expected: JsNumber)
    ensures expected == Finite(276) && width == Finite(300)
  {
    assert NewWidth(300) == Finite(300) && NewWidth(276) == Finite(276);
    var hook := new CarouselItemWidth();
    hook.UpdateWidthAsWritten(Some(Container(300, 0, 0)));
    hook.UpdateWidthAsWritten(Some(Container(276, 0, 0)));
    width := hook.itemWidth;
    expected := NewWidth(276);
  }

  /** With the intended comparison the same resizes end at 276. */
  method ShrinkBackIsApplied() returns (width: JsNumber)
    ensures width == Finite(276)
  {
    assert NewWidth(300) == Finite(300) && NewWidth(276) == Finite(276);
    var hook := new CarouselItemWidth();
    hook.UpdateWidth(Some(Container(300, 0, 0)));
    hook.UpdateWidth(Some(Container(276, 0, 0)));
    width := hook.itemWidth;
  }
}
