/** The component state of `CardDeckSection` and the event handlers that change it. */
module DeckSection {

  import opened Cards
  import opened SlotPolicy
  import opened FocusMapping

  /** One call of the caller's `onCardChange(index, card)`. */
  datatype ReplaceRequest = ReplaceRequest(index: int, card: Card)

  /** The four `useState` variables the handlers update. */
  class CardDeckState {
    /** `hoveredCard`: the slot whose preview is shown, if any. */
    var hovered: Option<int>
    /** `selectedCards`: the focus list, in the order slots were focused. */
    var focused: seq<int>
    /** `cardSelectionModalOpen`. */
    var modalOpen: bool
    /** `selectedCardIndex`: the slot waiting for a replacement card. */
    var pending: Option<int>

    /** The focus list never repeats a slot, the dialog is only open while a replacement is
        pending, and a pending slot is never a special one. */
    ghost predicate Valid()
      reads this
    {
      && NoDuplicates(focused)
      && (modalOpen ==> pending.Some?)
      && (pending.Some? ==> !IsSpecialSlot(pending.value))
    }

    /** The initial `useState` values: nothing hovered, nothing focused, no dialog. */
    constructor ()
      ensures Valid()
      ensures hovered == None && focused == [] && !modalOpen && pending == None
    {
      hovered := None;
      focused := [];
      modalOpen := false;
      pending := None;
    }

    /** `selectedCards.includes(index)`: the slot is drawn with the thick border. */
    function IsFocused(index: int): (b: bool)
      reads this
      ensures b <==> exists k :: 0 <= k < |focused| && focused[k] == index
    {
      index in focused
    }

    /** The selection dialog is mounted while a slot is pending, whether or not it is open. */
    function DialogMounted(): (b: bool)
      reads this
      ensures b <==> pending.Some?
      ensures Valid() && modalOpen ==> b
      ensures Valid() && b ==> !IsSpecialSlot(pending.value)
    {
      pending.Some?
    }

    /** The preview of slot `index` is drawn when that slot is hovered and its card has a
        truthy name. */
    function PreviewShown(index: int, card: Card): (b: bool)
      reads this
      ensures b ==> hovered == Some(index) && card.name.Some? && card.name.value != ""
      ensures !b ==> hovered != Some(index) || !Truthy(card.name)
    {
      hovered == Some(index) && Truthy(card.name)
    }

    /** `handleCardRightClick`: toggles the slot in the focus list, special slots included.
        The hover, the dialog and the pending slot are untouched. */
    method RightClick(index: int)
      requires Valid()
      modifies this
      ensures Valid()
      ensures focused == Toggle(old(focused), index)
      ensures IsFocused(index) <==> !old(IsFocused(index))
      ensures forall i :: i != index ==> (IsFocused(i) <==> old(IsFocused(i)))
      ensures hovered == old(hovered) && modalOpen == old(modalOpen) && pending == old(pending)
    {
      focused := Toggle(focused, index);
    }

    /** `handleCardClick`: a special slot ignores the click; any other slot becomes the pending
        slot and the selection dialog opens. The focus list and the hover are untouched. */
    method LeftClick(index: int)
      requires Valid()
      modifies this
      ensures Valid()
      ensures IsSpecialSlot(index) ==>
        pending == old(pending) && modalOpen == old(modalOpen)
      ensures !IsSpecialSlot(index) ==> pending == Some(index) && modalOpen && DialogMounted()
      ensures focused == old(focused) && hovered == old(hovered)
    {
      if IsSpecialSlot(index) {
        return;
      }
      pending := Some(index);
      modalOpen := true;
    }

    /** `handleCardSelect`: with a pending slot, emits exactly one replace request for that
        slot and the chosen card, then closes the dialog and clears the pending slot; without
        one, emits nothing and changes nothing. */
    method SelectCard(card: Card) returns (request: Option<ReplaceRequest>)
      requires Valid()
      modifies this
      ensures Valid()
      ensures request.Some? <==> old(pending).Some?
      ensures old(pending).Some? ==>
        request == Some(ReplaceRequest(old(pending).value, card)) && !modalOpen && pending == None
      ensures old(pending).None? ==> modalOpen == old(modalOpen) && pending == None
      ensures focused == old(focused) && hovered == old(hovered)
    {
      if pending.Some? {
        request := Some(ReplaceRequest(pending.value, card));
        modalOpen := false;
        pending := None;
      } else {
        request := None;
      }
    }

    /** The dialog's `onClose`: only the open flag drops; the pending slot stays set, so the
        dialog stays mounted (closed). */
    method CloseModal()
      requires Valid()
      modifies this
      ensures Valid()
      ensures !modalOpen && DialogMounted() == old(DialogMounted())
      ensures pending == old(pending) && focused == old(focused) && hovered == old(hovered)
    {
      modalOpen := false;
    }

    /** `onMouseEnter`: the slot becomes the hovered one only when its card has a truthy name;
        an empty placeholder leaves the hover as it was. */
    method HoverEnter(index: int, card: Card)
      requires Valid()
      modifies this
      ensures Valid()
      ensures Truthy(card.name) ==> hovered == Some(index) && PreviewShown(index, card)
      ensures !Truthy(card.name) ==> hovered == old(hovered)
      ensures focused == old(focused) && modalOpen == old(modalOpen) && pending == old(pending)
    {
      if Truthy(card.name) {
        hovered := Some(index);
      }
    }

    /** `onMouseLeave`: clears the hover whichever slot is left. */
    method HoverLeave()
      requires Valid()
      modifies this
      ensures Valid()
      ensures hovered == None && forall i, c :: !PreviewShown(i, c)
      ensures focused == old(focused) && modalOpen == old(modalOpen) && pending == old(pending)
    {
      hovered := None;
    }

    /** The load effect: the slots whose card id is among the stored ids replace the focus
        list, unless there are none, in which case the focus list is kept. */
    method LoadFocus(cards: Deck, storedIds: seq<string>)
      requires Valid()
      modifies this
      ensures Valid()
      ensures focused == ApplyLoad(old(focused), LoadIndices(cards, storedIds))
      ensures LoadIndices(cards, storedIds) == [] ==> focused == old(focused)
      ensures LoadIndices(cards, storedIds) != [] ==>
        forall i :: i in focused <==> MatchesStored(cards, i, storedIds)
      ensures hovered == old(hovered) && modalOpen == old(modalOpen) && pending == old(pending)
    {
      var loaded := LoadIndices(cards, storedIds);
      if |loaded| > 0 {
        focused := loaded;
      }
    }

    /** The save effect: the ids, in focus-list order, of the focused cards that have one. */
    method SaveFocus(cards: Deck) returns (ids: seq<string>)
      ensures ids == SaveIds(cards, focused)
      ensures forall s :: s in ids <==> exists i :: i in focused && IdAt(cards, i) == Some(s)
    {
      ids := SaveIds(cards, focused);
    }
  }

  /** At most one slot shows its preview at a time. */
  lemma AtMostOnePreview(state: CardDeckState, i: int, j: int, c: Card, d: Card)
    requires state.PreviewShown(i, c) && state.PreviewShown(j, d)
    ensures i == j
  {
  }

  /** Toggling the same slot twice on a component restores its focused set. */
  method RightClickTwice(state: CardDeckState, index: int)
    requires state.Valid()
    modifies state
    ensures state.Valid()
    ensures forall i :: i in state.focused <==> i in old(state.focused)
    ensures index !in old(state.focused) ==> state.focused == old(state.focused)
  {
    ToggleTwice(state.focused, index);
    state.RightClick(index);
    state.RightClick(index);
  }

  /** A session on an eight-slot deck whose slot 2 holds a named card with id "c1". */
  method ExampleSession()
  {
    var ranger := Card(Some("c1"), Some("Ranger"), Some("ancestry"));
    var warrior := Card(Some("c2"), Some("Warrior"), Some("profession"));
    var blank := Card(None, None, None);
    var cards: Deck := [None, None, Some(ranger), None, None, None, Some(blank), None];
    var s := new CardDeckState();

    s.RightClick(2);
    assert s.focused == [2];
    var saved := s.SaveFocus(cards);
    assert IdAt(cards, 2) == Some("c1");
    assert saved == ["c1"];

    s.LeftClick(2);
    assert s.pending == None && !s.modalOpen;

    s.LeftClick(6);
    assert s.pending == Some(6) && s.modalOpen;
    var request := s.SelectCard(warrior);
    assert request == Some(ReplaceRequest(6, warrior));
    assert s.pending == None && !s.modalOpen;

    var again := s.SelectCard(warrior);
    assert again == None;

    s.HoverEnter(6, blank);
    assert s.hovered == None;
    s.HoverEnter(2, ranger);
    assert s.hovered == Some(2);
    s.HoverLeave();
    assert s.hovered == None;
  }
}
