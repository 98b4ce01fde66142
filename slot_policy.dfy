/** Which slots are role-locked, what they are labelled and how their border is coloured. */
module SlotPolicy {

  import opened Cards

  /** Slots `0 .. SpecialSlotCount - 1` are special. */
  const SpecialSlotCount: int := 5

  const GenericLabel: string := "普通卡"
  const SpecialBorder: string := "border-yellow-400"
  const PlainBorder: string := "border-gray-300"

  /** `isSpecialSlot`: a slot is role-locked when its index is below five. */
  predicate IsSpecialSlot(index: int): (locked: bool)
    ensures 0 <= index ==> (locked <==> SpecialSlotLabel(index) != GenericLabel)
  {
    index < SpecialSlotCount
  }

  /** `getSpecialSlotLabel`: the fixed label of each special slot, the generic one elsewhere. */
  function SpecialSlotLabel(index: int): (text: string)
    ensures text != GenericLabel <==> 0 <= index < SpecialSlotCount
  {
    match index
    case 0 => "职业卡"
    case 1 => "子职业卡"
    case 2 => "血统卡一"
    case 3 => "血统卡二"
    case 4 => "社群卡"
    case _ => GenericLabel
  }

  /** The five special slots carry pairwise different labels. */
  lemma SpecialLabelsDistinct(i: int, j: int)
    requires 0 <= i < SpecialSlotCount && 0 <= j < SpecialSlotCount && i != j
    ensures SpecialSlotLabel(i) != SpecialSlotLabel(j)
  {
  }

  /** `getBorderColor`: the card type is accepted and ignored; only specialness decides. */
  function BorderColor(cardType: Option<string>, isSpecial: bool): (colour: string)
    ensures colour == SpecialBorder <==> isSpecial
    ensures colour == SpecialBorder || colour == PlainBorder
  {
    if isSpecial then SpecialBorder else PlainBorder
  }

  /** The slot at `index` is drawn with the yellow border exactly when it is special,
      whatever card it holds. */
  lemma SlotBorder(index: int, t: Option<string>, u: Option<string>)
    ensures BorderColor(t, IsSpecialSlot(index)) == SpecialBorder <==> index < 5
    ensures BorderColor(t, IsSpecialSlot(index)) == BorderColor(u, IsSpecialSlot(index))
  {
  }
}
