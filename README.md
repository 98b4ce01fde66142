# Card deck section: slot state machine

This project models the logic of the `CardDeckSection` React component of the DaggerHeart
character sheet. The component draws a fixed-size deck of card slots. Its logic covers:

- role-locked ("special") slots and their labels;
- the focus list, which the user toggles with a right-click;
- the pending-replacement slot and the selection dialog's open flag, set by a left-click;
- the hover index, which decides whether a floating preview is drawn;
- the mapping of the focus list to card ids for storage, and back from ids to slots;
- where the preview is anchored beside its slot;
- the colour of the type badge.

Modules, one per concern of the component:

- `Cards` (`cards.dfy`): the card record. It keeps the optional `id`, `name` and `type`. A deck
  is a sequence of optional cards, and the twenty-slot default deck is defined here.
- `SlotPolicy` (`slot_policy.dfy`): `isSpecialSlot`, `getSpecialSlotLabel` and `getBorderColor`.
- `FocusMapping` (`focus_mapping.dfy`): the right-click toggle, and the load and save mappings
  as pure functions with a round-trip lemma.
- `PreviewPlacement` (`preview_placement.dfy`): `getPreviewPosition` over a measured rectangle.
- `TypeBadge` (`type_badge.dfy`): the substring precedence chain that colours the type badge.
- `DeckSection` (`deck_section.dfy`): class `CardDeckState`. Its fields are the four `useState`
  variables the handlers change. Its methods are the handlers, and they keep an invariant: the
  focus list has no duplicates, the dialog is open only while a slot is pending, and a pending
  slot is never special.

The caller's `onCardChange(index, card)` callback is modelled as the value that `SelectCard`
returns: `Some(ReplaceRequest(index, card))` for one call, `None` for no call. The storage
service is modelled as data: the stored id list is a parameter of `LoadFocus`, and the list to
store is what `SaveFocus` returns. JavaScript `null`/`undefined` is `None`. A "truthy" string is
one that is present and not empty.

Behaviours of the code worth noting:

- Hover-leave clears the hover index whatever slot is left (line 94). It does not first check
  that the leaving slot is the hovered one.
- Closing the dialog (line 331) only clears the open flag. The pending slot stays set, so the
  dialog stays mounted but closed.
- The focus state is an ordered list, not a set. A toggle appends at the end or filters out.
- Save keeps an empty-string id, because its filter is `id != null`. Load ignores such an id,
  because it asks for a truthy id. The round-trip lemma therefore asks for non-empty ids.

## Model

| member | source | states |
|---|---|---|
| `Cards.DeckOrDefault` | components/character-sheet-page-two-sections/card-deck-section.tsx:180-183 | A sheet that has a card array (even an empty one) supplies the deck. Without one, the deck is 20 slots, each holding the empty card. |
| `SlotPolicy.IsSpecialSlot` | components/character-sheet-page-two-sections/card-deck-section.tsx:228-230 | A slot with a non-negative index is locked exactly when it carries one of the special labels. |
| `SlotPolicy.SpecialSlotLabel` | components/character-sheet-page-two-sections/card-deck-section.tsx:33-49 | The label differs from the generic "普通卡" exactly when the index is in 0..4. |
| `SlotPolicy.SpecialLabelsDistinct` | components/character-sheet-page-two-sections/card-deck-section.tsx:34-45 | The five special slots carry pairwise different labels. |
| `SlotPolicy.BorderColor` | components/character-sheet-page-two-sections/card-deck-section.tsx:27-31 | The colour is yellow exactly when the slot is special, and gray otherwise. |
| `SlotPolicy.SlotBorder` | components/character-sheet-page-two-sections/card-deck-section.tsx:227-230 | A slot gets the yellow border exactly when its index is below 5. The card's type makes no difference. |
| `FocusMapping.Without` | components/character-sheet-page-two-sections/card-deck-section.tsx:244 | The filter drops exactly the given slot and keeps every other entry. An absent slot leaves the list equal. No duplicates are introduced. |
| `FocusMapping.WithoutConcat` | components/character-sheet-page-two-sections/card-deck-section.tsx:244 | Filtering a concatenation is the concatenation of the filtered parts, so the kept entries stay in their original order. |
| `FocusMapping.WithoutKeepsOrder` | components/character-sheet-page-two-sections/card-deck-section.tsx:243-244 | In a duplicate-free list, removing the entry at position k gives exactly the entries before k followed by the entries after k. |
| `FocusMapping.WithoutLast` | components/character-sheet-page-two-sections/card-deck-section.tsx:243-247 | Removing a slot that was just appended, and that occurs nowhere else, gives back the earlier list. |
| `FocusMapping.Toggle` | components/character-sheet-page-two-sections/card-deck-section.tsx:240-248 | The toggled slot's membership flips, and no other slot's membership changes. An absent slot is appended at the end. A present slot in a duplicate-free list is cut out at its position, with the other entries kept in order. The list stays duplicate-free. |
| `FocusMapping.ToggleTwice` | components/character-sheet-page-two-sections/card-deck-section.tsx:240-248 | Toggling the same slot twice restores the focused set. It restores the exact list when the slot was not focused before. |
| `FocusMapping.LoadIndicesFrom` | components/character-sheet-page-two-sections/card-deck-section.tsx:188-191 | From a start position on, the result holds exactly the slots whose card has a truthy id in the stored list, in strictly ascending order. |
| `FocusMapping.LoadIndices` | components/character-sheet-page-two-sections/card-deck-section.tsx:186-191 | The loaded indices are exactly the slots whose card has a truthy id in the stored list, in ascending order. |
| `FocusMapping.ApplyLoad` | components/character-sheet-page-two-sections/card-deck-section.tsx:193-195 | A non-empty load result becomes the focus list. An empty one leaves the current list in place. |
| `FocusMapping.LoadEmptyWhenNoMatch` | components/character-sheet-page-two-sections/card-deck-section.tsx:188-195 | The load result is empty exactly when no card carries a stored id. Stale ids are dropped. |
| `FocusMapping.SaveIds` | components/character-sheet-page-two-sections/card-deck-section.tsx:199-201 | An id is saved exactly when some focused slot's card carries it. There are never more ids than focused slots. |
| `FocusMapping.SaveAppend` | components/character-sheet-page-two-sections/card-deck-section.tsx:200 | Saving follows the focus-list order: one more focused slot appends its id, if it has one, at the end. |
| `FocusMapping.LoadAfterSave` | components/character-sheet-page-two-sections/card-deck-section.tsx:186-202 | Round trip: suppose each focused card has a non-empty id that no other card shares. Then loading the saved ids gives exactly the focused slots. |
| `FocusMapping.SaveThenLoad` | components/character-sheet-page-two-sections/card-deck-section.tsx:186-202 | The same round trip holds through the component's load step, including an empty focus list, which an empty load leaves in place. |
| `PreviewPlacement.PreviewPosition` | components/character-sheet-page-two-sections/card-deck-section.tsx:271-289 | An unmeasured slot gets the empty placement. Otherwise the placement is fixed, with top equal to the slot's top, an 80vh cap and z-index 1000. It is right-anchored exactly when the slot's left edge is past half the viewport, with its right edge 10 px left of the slot. Otherwise its left edge is 10 px right of the slot. |
| `PreviewPlacement.PreviewBesideSlot` | components/character-sheet-page-two-sections/card-deck-section.tsx:278-284 | The preview lies wholly beside its slot and never over it. In the right half it opens towards the viewport's centre. |
| `PreviewPlacement.RightHalfExample` | components/character-sheet-page-two-sections/card-deck-section.tsx:278-284 | A slot at left 900 in a 1000 px viewport gets `right` = 110, `left` = auto and `top` = 100. |
| `PreviewPlacement.MeasuredSlot` | components/character-sheet-page-two-sections/card-deck-section.tsx:272-275 | An index within the ref list gives whatever that entry holds. Any other index gives no rectangle. |
| `PreviewPlacement.UnregisteredRefsNeverPlace` | components/character-sheet-page-two-sections/card-deck-section.tsx:271-275 | The ref list is never filled, so every slot gets the empty placement. |
| `TypeBadge.Includes` | components/character-sheet-page-two-sections/card-deck-section.tsx:126-132 | `includes` is true exactly when the keyword occurs at some position of the type. |
| `TypeBadge.BadgeColour` | components/character-sheet-page-two-sections/card-deck-section.tsx:126-135 | The colour's keyword occurs in the type, and no keyword earlier in the order ancestry, community, profession, subclass occurs. Red means that none occurs. |
| `TypeBadge.BadgeClasses` | components/character-sheet-page-two-sections/card-deck-section.tsx:127-134 | Each colour's class string opens with the background class of that colour's own hue. |
| `TypeBadge.BadgeClassesDistinct` | components/character-sheet-page-two-sections/card-deck-section.tsx:127-134 | Different colours give different class strings. |
| `TypeBadge.BadgeShown` | components/character-sheet-page-two-sections/card-deck-section.tsx:123-135 | A badge is shown exactly on a non-special slot whose card has a truthy name and type. Its colour is the chain's colour. |
| `TypeBadge.AncestryWins` | components/character-sheet-page-two-sections/card-deck-section.tsx:126-127 | A type containing "ancestry" is gray, whatever else it contains. |
| `TypeBadge.RedFallback` | components/character-sheet-page-two-sections/card-deck-section.tsx:126-134 | The badge is red exactly when none of the four keywords occurs. |
| `DeckSection.CardDeckState.constructor` | components/character-sheet-page-two-sections/card-deck-section.tsx:173-178 | The initial state has no hover, an empty focus list, a closed dialog and no pending slot. |
| `DeckSection.CardDeckState.IsFocused` | components/character-sheet-page-two-sections/card-deck-section.tsx:308 | A slot is drawn as focused exactly when it occurs somewhere in the focus list. |
| `DeckSection.CardDeckState.DialogMounted` | components/character-sheet-page-two-sections/card-deck-section.tsx:328 | The dialog is mounted exactly while a slot is pending. Under the state invariant it is mounted whenever it is open, and its pending slot is never special. |
| `DeckSection.CardDeckState.PreviewShown` | components/character-sheet-page-two-sections/card-deck-section.tsx:143 | A slot's preview is drawn exactly when that slot is hovered and its card has a non-empty name. |
| `DeckSection.CardDeckState.RightClick` | components/character-sheet-page-two-sections/card-deck-section.tsx:233-249 | The focus list becomes its toggle, special slots included. Only the clicked slot's membership flips. Hover, dialog and pending slot are unchanged. |
| `DeckSection.CardDeckState.LeftClick` | components/character-sheet-page-two-sections/card-deck-section.tsx:252-259 | A special slot changes nothing. Any other slot becomes pending and opens the dialog. The focus list and hover are unchanged. |
| `DeckSection.CardDeckState.SelectCard` | components/character-sheet-page-two-sections/card-deck-section.tsx:262-268 | With a pending slot, exactly one replace request goes out for that slot and card. Then the dialog closes and the pending slot clears. With none, no request goes out and nothing changes. |
| `DeckSection.CardDeckState.CloseModal` | components/character-sheet-page-two-sections/card-deck-section.tsx:331 | Only the open flag drops. The pending slot stays set. |
| `DeckSection.CardDeckState.HoverEnter` | components/character-sheet-page-two-sections/card-deck-section.tsx:93 | A card with a truthy name becomes hovered and its preview is shown. An empty placeholder leaves the hover as it was. |
| `DeckSection.CardDeckState.HoverLeave` | components/character-sheet-page-two-sections/card-deck-section.tsx:94 | The hover clears unconditionally, and no preview is shown. |
| `DeckSection.CardDeckState.LoadFocus` | components/character-sheet-page-two-sections/card-deck-section.tsx:186-196 | The focus list becomes the matching slots. When none match, it stays as it was. |
| `DeckSection.CardDeckState.SaveFocus` | components/character-sheet-page-two-sections/card-deck-section.tsx:199-202 | The ids to store are those of the focused cards that have one, in focus-list order. |
| `DeckSection.RightClickTwice` | components/character-sheet-page-two-sections/card-deck-section.tsx:233-249 | Two right-clicks on one slot restore the component's focused set. |
| `DeckSection.AtMostOnePreview` | components/character-sheet-page-two-sections/card-deck-section.tsx:143 | At most one slot shows its preview at any time. |

## Left out

- The JSX markup, the Tailwind classes other than the border and badge colours, `memo`, the
  border width of focused slots and the global `<style jsx>` block: these are presentation only.
- The Alt-key `window` listeners and the `isAltPressed` flag: nothing in the component reads
  the flag.
- `loadFocusedCardIds` and `saveFocusedCardIds`: this is localStorage I/O. The stored ids come
  in as a parameter, and the ids to store go out as a result.
- `convertToStandardCard`, `isVariantCard`, `getVariantRealType` and `getCardTypeName` are not
  part of this model. The badge reads the card's own type, and the displayed type name is not
  modelled.
- `createEmptyCard` is not part of this model. The empty card is a parameter of
  `Cards.DeckOrDefault`. The replacement of a missing slot by the empty card (lines 303-305)
  happens before `HoverEnter` is called, so that method takes the card as rendered.
- `CardSelectionModal` and the filter state threaded through it belong to an external dialog.
  The dialog is represented only by its `onSelect` (`SelectCard`) and `onClose` (`CloseModal`).
- When the load and save effects run, and their dependency arrays, are React scheduling.
  Load and save are explicit operations instead.
- The DOM measurement (`getBoundingClientRect`, `window.innerWidth`) is left out; its numbers
  come in as parameters. The `"px"` string formatting is left out too.
- PreviewPlacement.PreviewPosition: geometry uses exact `real` numbers, not IEEE doubles, so
  rounding in the subtraction and addition is not modelled.
- `e.preventDefault()` in the right-click handler only suppresses the browser menu, so it is
  left out. The `if (!prev)` guard at line 241 cannot fire, because the focus state always holds
  an array.
- The `onCardChange` presence check at line 263 is left out, because the callback is a required
  property.
