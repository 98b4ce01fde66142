/** The card record as this component sees it, and the deck it reads. */
module Cards {

  /** An optional value: `None` stands for JavaScript's `null` and `undefined`. */
  datatype Option<+T> = None | Some(value: T)

  /** JavaScript truthiness of an optional string: present and not the empty string. */
  predicate Truthy(s: Option<string>)
  {
    s.Some? && s.value != ""
  }

  /** A card, reduced to the three fields the deck logic reads. */
  datatype Card = Card(id: Option<string>, name: Option<string>, cardType: Option<string>)

  /** The deck: slot `i` holds a card, or `None` when the array has a hole there. */
  type Deck = seq<Option<Card>>

  /** Number of slots in the deck used when the sheet carries none. */
  const DefaultDeckSize: nat := 20

  /** `formData?.cards || Array(20).fill(createEmptyCard())`: the sheet's own cards when it has
      any array at all (an empty array is truthy), otherwise twenty copies of the empty card. */
  function DeckOrDefault(formCards: Option<Deck>, empty: Card): (d: Deck)
    ensures formCards.Some? ==> d == formCards.value
    ensures formCards.None? ==> |d| == DefaultDeckSize
    ensures formCards.None? ==> forall i :: 0 <= i < |d| ==> d[i] == Some(empty)
  {
    if formCards.Some? then formCards.value else seq(DefaultDeckSize, _ => Some(empty))
  }
}
