/**
 * `Hoverable`: a wrapper that hit-tests the pointer against the child's
 * bounding rectangle, composes the child's class list with the hovered or
 * default class, and hands the element to both its own ref and the child's
 * ref through one merged ref.
 */
module Hoverable {
  import opened Wrappers
  import opened Text

  datatype Rect = Rect(left: real, top: real, right: real, bottom: real)
  datatype Point = Point(x: real, y: real)

  /** `hovered`: a rectangle exists and contains the pointer, edges included. */
  predicate Hovered(rect: Option<Rect>, pointer: Point) {
    && rect.Some?
    && rect.value.left <= pointer.x && pointer.x <= rect.value.right
    && rect.value.top <= pointer.y && pointer.y <= rect.value.bottom
  }

  /** An element that is not mounted has no rectangle and is never hovered. */
  lemma UnmountedIsNotHovered(pointer: Point)
    ensures !Hovered(None, pointer)
  {
  }

  /** The four corners of a rectangle, and its centre, are hovered. */
  lemma EdgesCount(r: Rect)
    requires r.left <= r.right && r.top <= r.bottom
    ensures Hovered(Some(r), Point(r.left, r.top)) && Hovered(Some(r), Point(r.right, r.bottom))
    ensures Hovered(Some(r), Point(r.left, r.bottom)) && Hovered(Some(r), Point(r.right, r.top))
    ensures Hovered(Some(r), Point((r.left + r.right) / 2.0, (r.top + r.bottom) / 2.0))
  {
  }

  /** A point just outside any edge is not hovered. */
  lemma OutsideIsNotHovered(r: Rect, pointer: Point)
    requires pointer.x < r.left || r.right < pointer.x || pointer.y < r.top || r.bottom < pointer.y
    ensures !Hovered(Some(r), pointer)
  {
  }

  /** An argument of `classNames`: a string, or `undefined`. */
  predicate Truthy(arg: Option<string>) {
    arg.Some? && arg.value != ""
  }

  /** The truthy arguments, in order. */
  function TruthyArgs(args: seq<Option<string>>): (r: seq<string>)
    ensures |r| <= |args|
    ensures forall c :: c in r ==> c != ""
  {
    if args == [] then []
    else (if Truthy(args[0]) then [args[0].value] else []) + TruthyArgs(args[1..])
  }

  /** `classNames(...args)` on string arguments: the truthy ones joined by single spaces. */
  function ClassNames(args: seq<Option<string>>): string {
    Join(TruthyArgs(args), " ")
  }

  /** The class list `Hoverable` gives its child. */
  function HoverableClassName(childClass: Option<string>, hovered: bool,
                              defaultClass: Option<string>, hoveredClass: Option<string>): string {
    ClassNames([childClass, Some("cursor-pointer"), if hovered then hoveredClass else defaultClass])
  }

  /**
   * The class list is the child's class (when it has one), then
   * `cursor-pointer`, then the hovered class when hovered and the default
   * class otherwise (when that is set), separated by single spaces.
   */
  lemma HoverableClassNameParts(childClass: Option<string>, hovered: bool,
                                defaultClass: Option<string>, hoveredClass: Option<string>)
    ensures var chosen := if hovered then hoveredClass else defaultClass;
      HoverableClassName(childClass, hovered, defaultClass, hoveredClass)
        == (if Truthy(childClass) then childClass.value + " " else "")
           + "cursor-pointer"
           + (if Truthy(chosen) then " " + chosen.value else "")
  {
    var chosen := if hovered then hoveredClass else defaultClass;
    var args := [childClass, Some("cursor-pointer"), chosen];
    assert args[1..][1..][1..] == [];
    var last := if Truthy(chosen) then [chosen.value] else [];
    assert TruthyArgs(args[1..][1..]) == last;
    var mid := ["cursor-pointer"] + last;
    assert TruthyArgs(args[1..]) == mid;
    assert TruthyArgs(args) == (if Truthy(childClass) then [childClass.value] else []) + mid;
    if Truthy(chosen) {
      assert mid[1..] == [chosen.value];
    }
    assert Join(mid, " ") == "cursor-pointer" + (if Truthy(chosen) then " " + chosen.value else "");
    if Truthy(childClass) {
      assert ([childClass.value] + mid)[1..] == mid;
    } else {
      assert [] + mid == mid;
    }
  }

  /** An element handed to the refs. */
  datatype Element = Element(id: nat)

  /** A `RefObject`, whose `current` the merged ref assigns. */
  class RefBox {
    var current: Option<Element>

    constructor()
      ensures current == None
    {
      current := None;
    }
  }

  /** A ref: a callback (identified by name), an object, or `null`/`undefined`. */
  datatype Ref = CallbackRef(name: string) | ObjectRef(box: RefBox) | NullRef

  /** `.filter((v) => v != null)` on the refs. */
  function FilterRefs(refs: seq<Ref>): (r: seq<Ref>)
    ensures |r| <= |refs|
  {
    if refs == [] then []
    else (if refs[0].NullRef? then [] else [refs[0]]) + FilterRefs(refs[1..])
  }

  /** The filter drops exactly the null refs and keeps the rest in order. */
  lemma {:induction false} FilterRefsKeepsNonNull(refs: seq<Ref>)
    ensures forall i :: 0 <= i < |FilterRefs(refs)| ==> !FilterRefs(refs)[i].NullRef?
    ensures forall x :: x in FilterRefs(refs) <==> x in refs && !x.NullRef?
    ensures FilterRefs(refs) == refs <==> forall i :: 0 <= i < |refs| ==> !refs[i].NullRef?
  {
    if refs != [] {
      FilterRefsKeepsNonNull(refs[1..]);
      assert refs == [refs[0]] + refs[1..];
    }
  }

  /** The callbacks a merged ref calls, in list order. */
  function Callbacks(refs: seq<Ref>): (r: seq<string>)
    ensures |r| <= |refs|
  {
    if refs == [] then []
    else (if refs[0].CallbackRef? then [refs[0].name] else []) + Callbacks(refs[1..])
  }

  /** The boxes among the refs. */
  function Boxes(refs: seq<Ref>): set<RefBox> {
    set i | 0 <= i < |refs| && refs[i].ObjectRef? :: refs[i].box
  }

  lemma CallbacksSnoc(refs: seq<Ref>, r: Ref)
    ensures Callbacks(refs + [r]) == Callbacks(refs) + (if r.CallbackRef? then [r.name] else [])
  {
    if refs == [] {
      assert refs + [r] == [r];
    } else {
      assert (refs + [r])[1..] == refs[1..] + [r];
      CallbacksSnoc(refs[1..], r);
    }
  }

  /**
   * The merged ref of `useMergeRefs`, called with `value` (the element on
   * mount, `None` for React's `ref(null)` on unmount): each callback is
   * called with it in list order (the calls are returned), each object ref
   * gets `current` set to it, and no other box changes.
   */
  method MergedRef(refs: seq<Ref>, value: Option<Element>) returns (calls: seq<string>)
    modifies Boxes(refs)
    ensures calls == Callbacks(refs)
    ensures forall b :: b in Boxes(refs) ==> b.current == value
  {
    calls := [];
    var i := 0;
    while i < |refs|
      invariant 0 <= i <= |refs|
      invariant calls == Callbacks(refs[..i])
      invariant forall j :: 0 <= j < i && refs[j].ObjectRef? ==> refs[j].box.current == value
    {
      var ref := refs[i];
      if ref.CallbackRef? {
        calls := calls + [ref.name];
      } else if ref.ObjectRef? {
        ref.box.current := value;
      }
      assert refs[..i + 1] == refs[..i] + [ref];
      CallbacksSnoc(refs[..i], ref);
      i := i + 1;
    }
    assert refs[..i] == refs;
  }

  /**
   * The merged ref already skips null refs, so filtering them out first
   * changes neither the callbacks called nor the boxes assigned.
   */
  lemma {:induction false} FilterRefsIsTransparent(refs: seq<Ref>)
    ensures Callbacks(FilterRefs(refs)) == Callbacks(refs)
    ensures Boxes(FilterRefs(refs)) == Boxes(refs)
  {
    if refs != [] {
      FilterRefsIsTransparent(refs[1..]);
      var head := if refs[0].NullRef? then [] else [refs[0]];
      assert FilterRefs(refs) == head + FilterRefs(refs[1..]);
      BoxesCons(refs[0], refs[1..]);
      if !refs[0].NullRef? {
        BoxesCons(refs[0], FilterRefs(refs[1..]));
        assert ([refs[0]] + FilterRefs(refs[1..]))[1..] == FilterRefs(refs[1..]);
      } else {
        assert head + FilterRefs(refs[1..]) == FilterRefs(refs[1..]);
      }
    }
  }

  lemma BoxesCons(r: Ref, rest: seq<Ref>)
    ensures Boxes([r] + rest) == (if r.ObjectRef? then {r.box} else {}) + Boxes(rest)
  {
    var refs := [r] + rest;
    forall b | b in Boxes(refs)
      ensures b in (if r.ObjectRef? then {r.box} else {}) + Boxes(rest)
    {
      var i :| 0 <= i < |refs| && refs[i].ObjectRef? && refs[i].box == b;
      if i > 0 {
        assert rest[i - 1] == refs[i];
      }
    }
    forall b | b in Boxes(rest)
      ensures b in Boxes(refs)
    {
      var i :| 0 <= i < |rest| && rest[i].ObjectRef? && rest[i].box == b;
      assert refs[i + 1] == rest[i];
    }
    if r.ObjectRef? {
      assert refs[0] == r;
    }
  }

  /** The child's props that `cloneElement` sees. */
  datatype ChildProps = ChildProps(className: Option<string>, ref: Ref, others: map<string, string>)

  /** `cloneElement(child, { className, ref })` replaces those two props only. */
  function CloneWith(child: ChildProps, className: string, ref: Ref): (r: ChildProps)
    ensures r.className == Some(className) && r.ref == ref
    ensures r.others == child.others
  {
    child.(className := Some(className), ref := ref)
  }
}
