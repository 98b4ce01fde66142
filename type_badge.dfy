/** The colour of the type badge drawn above a non-special slot (the ternary chain in `Card`). */
module TypeBadge {

  import opened Cards

  /** Badge colours, named after their Tailwind background: gray for ancestry, teal for
      community, blue for profession, purple for subclass, red for everything else. */
  datatype Badge = Gray | Teal | Blue | Purple | Red

  /** Position of a colour in the chain; the fallback comes last. */
  function Rank(b: Badge): nat
  {
    match b
    case Gray => 0
    case Teal => 1
    case Blue => 2
    case Purple => 3
    case Red => 4
  }

  /** The substring that selects a colour; the fallback has none. */
  function Keyword(b: Badge): string
    requires b != Red
  {
    match b
    case Gray => "ancestry"
    case Teal => "community"
    case Blue => "profession"
    case Purple => "subclass"
  }

  /** The Tailwind hue of each colour. */
  function Hue(b: Badge): string
  {
    match b
    case Gray => "gray"
    case Teal => "teal"
    case Blue => "blue"
    case Purple => "purple"
    case Red => "red"
  }

  /** The Tailwind classes of each colour: they open with the background of the colour's own
      hue. */
  function BadgeClasses(b: Badge): (classes: string)
    ensures "bg-" + Hue(b) <= classes
  {
    match b
    case Gray => "bg-gray-100 border-gray-300"
    case Teal => "bg-teal-100 border-teal-300"
    case Blue => "bg-blue-100 border-blue-300"
    case Purple => "bg-purple-100 border-purple-300"
    case Red => "bg-red-100 border-red-300"
  }

  ghost predicate OccursAt(s: string, sub: string, i: int)
  {
    0 <= i && i + |sub| <= |s| && s[i..i + |sub|] == sub
  }

  /** `String.prototype.includes`: `sub` occurs somewhere in `s`. */
  function Includes(s: string, sub: string): (r: bool)
    ensures r <==> exists i :: OccursAt(s, sub, i)
  {
    if |sub| > |s| then false
    else if s[..|sub|] == sub then
      assert OccursAt(s, sub, 0);
      true
    else
      var r := Includes(s[1..], sub);
      ShiftOccurrence(s, sub);
      r
  }

  /** Occurrences in `s` past position 0 are the occurrences in `s[1..]`, shifted by one. */
  lemma ShiftOccurrence(s: string, sub: string)
    requires s != []
    ensures (exists i :: OccursAt(s[1..], sub, i)) <==> (exists i :: 1 <= i && OccursAt(s, sub, i))
  {
    if i :| OccursAt(s[1..], sub, i) {
      assert s[i + 1..i + 1 + |sub|] == s[1..][i..i + |sub|];
      assert OccursAt(s, sub, i + 1);
    }
    if i :| 1 <= i && OccursAt(s, sub, i) {
      assert s[1..][i - 1..i - 1 + |sub|] == s[i..i + |sub|];
      assert OccursAt(s[1..], sub, i - 1);
    }
  }

  /** The colour chain on the card type: the first keyword, in the order ancestry, community,
      profession, subclass, that the type contains decides the colour; a type containing none
      of them is red. */
  function BadgeColour(cardType: string): (b: Badge)
    ensures b != Red ==> Includes(cardType, Keyword(b))
    ensures forall c :: Rank(c) < Rank(b) ==> c != Red && !Includes(cardType, Keyword(c))
  {
    if Includes(cardType, "ancestry") then Gray
    else if Includes(cardType, "community") then Teal
    else if Includes(cardType, "profession") then Blue
    else if Includes(cardType, "subclass") then Purple
    else Red
  }

  /** The badge is drawn only on a non-special slot whose card has a truthy name and type. */
  function BadgeShown(isSpecial: bool, card: Card): (shown: Option<Badge>)
    ensures shown.Some? <==> !isSpecial && Truthy(card.name) && Truthy(card.cardType)
    ensures shown.Some? ==> shown.value == BadgeColour(card.cardType.value)
  {
    if !isSpecial && Truthy(card.name) && Truthy(card.cardType)
    then Some(BadgeColour(card.cardType.value))
    else None
  }

  /** Different colours give different class strings. */
  lemma BadgeClassesDistinct(b: Badge, c: Badge)
    requires b != c
    ensures BadgeClasses(b) != BadgeClasses(c)
  {
    assert ("bg-" + Hue(b))[3] == BadgeClasses(b)[3];
    assert ("bg-" + Hue(c))[3] == BadgeClasses(c)[3];
  }

  /** Precedence: a type naming both ancestry and subclass is coloured as ancestry. */
  lemma AncestryWins(cardType: string)
    requires Includes(cardType, "ancestry")
    ensures BadgeColour(cardType) == Gray
  {
  }

  /** The red fallback is chosen exactly when no keyword occurs. */
  lemma RedFallback(cardType: string)
    ensures BadgeColour(cardType) == Red <==>
      forall c :: c != Red ==> !Includes(cardType, Keyword(c))
  {
  }
}
