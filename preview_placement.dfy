/** Where the floating preview of a hovered slot is anchored (`getPreviewPosition`). */
module PreviewPlacement {

  import opened Cards

  /** The slot's bounding rectangle in viewport coordinates. */
  datatype Rect = Rect(top: real, left: real, right: real, bottom: real)

  /** One horizontal style property: `"auto"` or a pixel offset. */
  datatype Anchor = Auto | Px(px: real)

  /** The style record: `{}` when the slot is unmeasured, otherwise a viewport-fixed box with
      its top edge, one anchored horizontal edge, a height cap in viewport-height units and a
      stacking order. Vertical scrolling inside the box is always on and is not recorded. */
  datatype Placement =
    | Unplaced
    | Fixed(top: real, left: Anchor, right: Anchor, maxHeightVh: int, zIndex: int)

  const Gap: real := 10.0
  const MaxHeightVh: int := 80
  const PreviewZIndex: int := 1000

  /** The slot starts in the right half of the viewport. */
  predicate RightSide(rect: Rect, viewportWidth: real)
  {
    rect.left > viewportWidth / 2.0
  }

  /** `getPreviewPosition`, with the DOM lookup `cardRefs.current[index]` passed in as
      `measured` and `window.innerWidth` as `viewportWidth`. A slot in the right half gets a
      preview whose right edge sits `Gap` pixels left of the slot; any other slot gets one whose
      left edge sits `Gap` pixels right of the slot. */
  function PreviewPosition(measured: Option<Rect>, viewportWidth: real): (p: Placement)
    ensures p.Unplaced? <==> measured.None?
    ensures p.Fixed? ==> p.top == measured.value.top
    ensures p.Fixed? ==> p.maxHeightVh == MaxHeightVh && p.zIndex == PreviewZIndex
    ensures p.Fixed? ==> (p.right.Px? <==> RightSide(measured.value, viewportWidth))
    ensures p.Fixed? ==> (p.left.Px? <==> !p.right.Px?)
    ensures p.Fixed? && p.right.Px? ==> viewportWidth - p.right.px == measured.value.left - Gap
    ensures p.Fixed? && p.left.Px? ==> p.left.px == measured.value.right + Gap
  {
    match measured
    case None => Unplaced
    case Some(rect) =>
      var isRightSide := rect.left > viewportWidth / 2.0;
      Fixed(rect.top,
            if isRightSide then Auto else Px(rect.right + Gap),
            if isRightSide then Px(viewportWidth - rect.left + Gap) else Auto,
            MaxHeightVh, PreviewZIndex)
  }

  /** The preview never covers its own slot horizontally: it lies wholly to the left of the
      slot or wholly to its right, `Gap` pixels away, and it opens towards the viewport's
      centre when the slot is in the right half. */
  lemma PreviewBesideSlot(rect: Rect, viewportWidth: real)
    requires rect.left <= rect.right
    ensures var p := PreviewPosition(Some(rect), viewportWidth);
      if RightSide(rect, viewportWidth)
      then p.right.Px? && viewportWidth - p.right.px < rect.left
           && viewportWidth - p.right.px > viewportWidth / 2.0 - Gap
      else p.left.Px? && p.left.px > rect.right
  {
  }

  /** The slot at (left 900, right 950, top 100) in a 1000-pixel-wide viewport is in the right
      half: the preview is right-anchored at 110 pixels with its left edge `auto`. */
  lemma RightHalfExample()
    ensures PreviewPosition(Some(Rect(100.0, 900.0, 950.0, 150.0)), 1000.0)
         == Fixed(100.0, Auto, Px(110.0), 80, 1000)
  {
  }

  /** `cardRefs.current[index]`: the rectangle of the element registered for a slot, if any. */
  function MeasuredSlot(refs: seq<Option<Rect>>, index: int): (m: Option<Rect>)
    ensures 0 <= index < |refs| ==> m == refs[index]
    ensures !(0 <= index < |refs|) ==> m == None
  {
    if 0 <= index < |refs| then refs[index] else None
  }

  /** No element is ever registered in `cardRefs` by this component, so the ref list stays
      empty and every slot's preview gets the empty placement. */
  lemma UnregisteredRefsNeverPlace(index: int, viewportWidth: real)
    ensures PreviewPosition(MeasuredSlot([], index), viewportWidth) == Unplaced
  {
  }
}
