/** The focus list (`selectedCards`): how a right-click toggles it, and how it is turned into
    card ids for storage and back into slot indices on load. */
module FocusMapping {

  import opened Cards

  predicate NoDuplicates(s: seq<int>)
  {
    forall j, k :: 0 <= j < k < |s| ==> s[j] != s[k]
  }

  predicate StrictlyIncreasing(s: seq<int>)
  {
    forall j, k :: 0 <= j < k < |s| ==> s[j] < s[k]
  }

  /** Prepending an element that is absent from a duplicate-free list keeps it duplicate-free,
      and the converse split of a duplicate-free list. */
  lemma NoDuplicatesCons(s: seq<int>)
    requires s != []
    ensures NoDuplicates(s) <==> s[0] !in s[1..] && NoDuplicates(s[1..])
  {
  }

  // ---------------------------------------------------------------------------------------
  // Toggle (right-click)
  // ---------------------------------------------------------------------------------------

  /** `prev.filter((i) => i !== index)`: the list with every occurrence of `x` dropped, the
      other entries kept in their order. */
  function Without(s: seq<int>, x: int): (r: seq<int>)
    ensures forall y :: y in r <==> y in s && y != x
    ensures |r| <= |s|
    ensures x !in s ==> r == s
    ensures NoDuplicates(s) ==> NoDuplicates(r)
  {
    if s == [] then []
    else if s[0] == x then Without(s[1..], x)
    else
      var r := [s[0]] + Without(s[1..], x);
      NoDuplicatesCons(s);
      NoDuplicatesCons(r);
      r
  }

  /** Dropping `x` from a list that ends in `x` and holds it nowhere else gives back the prefix. */
  lemma {:induction false} WithoutLast(s: seq<int>, x: int)
    requires x !in s
    ensures Without(s + [x], x) == s
  {
    if s == [] {
      assert [x][1..] == [];
    } else {
      assert (s + [x])[1..] == s[1..] + [x];
      WithoutLast(s[1..], x);
    }
  }

  /** The filter distributes over concatenation, so it keeps the surviving entries in order. */
  lemma {:induction false} WithoutConcat(s: seq<int>, t: seq<int>, x: int)
    ensures Without(s + t, x) == Without(s, x) + Without(t, x)
  {
    if s == [] {
      assert s + t == t;
    } else {
      assert (s + t)[0] == s[0];
      assert (s + t)[1..] == s[1..] + t;
      WithoutConcat(s[1..], t, x);
    }
  }

  /** Removing the one occurrence of a focused slot closes the gap it leaves: the entries
      before and after it keep their positions relative to each other. */
  lemma {:induction false} WithoutKeepsOrder(s: seq<int>, k: int)
    requires NoDuplicates(s) && 0 <= k < |s|
    ensures Without(s, s[k]) == s[..k] + s[k + 1..]
  {
    var x := s[k];
    assert s == s[..k] + ([x] + s[k + 1..]);
    WithoutConcat(s[..k], [x] + s[k + 1..], x);
    WithoutConcat([x], s[k + 1..], x);
    assert x !in s[..k];
    assert x !in s[k + 1..];
    assert [x][1..] == [];
  }

  /** `handleCardRightClick`'s update: remove `x` when it is focused, otherwise append it. */
  function Toggle(s: seq<int>, x: int): (r: seq<int>)
    ensures x in r <==> x !in s
    ensures forall y :: y != x ==> (y in r <==> y in s)
    ensures x !in s ==> r == s + [x]
    ensures NoDuplicates(s) && x in s ==>
      exists k :: 0 <= k < |s| && s[k] == x && r == s[..k] + s[k + 1..]
    ensures NoDuplicates(s) ==> NoDuplicates(r)
  {
    if x in s then
      assert NoDuplicates(s) ==>
        exists k :: 0 <= k < |s| && s[k] == x && Without(s, x) == s[..k] + s[k + 1..]
      by {
        if NoDuplicates(s) {
          var k :| 0 <= k < |s| && s[k] == x;
          WithoutKeepsOrder(s, k);
        }
      }
      Without(s, x)
    else s + [x]
  }

  /** Toggling the same slot twice restores the focused set; when the slot was not focused
      before, the list itself comes back unchanged. */
  lemma ToggleTwice(s: seq<int>, x: int)
    ensures forall y :: y in Toggle(Toggle(s, x), x) <==> y in s
    ensures x !in s ==> Toggle(Toggle(s, x), x) == s
  {
    if x !in s {
      WithoutLast(s, x);
    }
  }

  // ---------------------------------------------------------------------------------------
  // Load: stored ids -> slot indices
  // ---------------------------------------------------------------------------------------

  /** `card && card.id && loadedFocusedCardIds.includes(card.id)` for the card at slot `i`. */
  predicate MatchesStored(cards: Deck, i: int, ids: seq<string>)
  {
    && 0 <= i < |cards|
    && cards[i].Some?
    && Truthy(cards[i].value.id)
    && cards[i].value.id.value in ids
  }

  /** The matching slots from `from` onwards, in ascending order. */
  function LoadIndicesFrom(cards: Deck, ids: seq<string>, from: nat): (r: seq<int>)
    requires from <= |cards|
    ensures forall i :: i in r <==> from <= i && MatchesStored(cards, i, ids)
    ensures StrictlyIncreasing(r)
    ensures forall j :: 0 <= j < |r| ==> from <= r[j]
    decreases |cards| - from
  {
    if from == |cards| then []
    else if MatchesStored(cards, from, ids) then [from] + LoadIndicesFrom(cards, ids, from + 1)
    else LoadIndicesFrom(cards, ids, from + 1)
  }

  /** The load effect's map/filter: the indices, in ascending order, of exactly the slots whose
      card has a truthy id that the stored list contains. */
  function LoadIndices(cards: Deck, ids: seq<string>): (r: seq<int>)
    ensures forall i :: i in r <==> MatchesStored(cards, i, ids)
    ensures StrictlyIncreasing(r)
  {
    LoadIndicesFrom(cards, ids, 0)
  }

  /** `if (initialSelectedIndices.length > 0) setSelectedCards(...)`: an empty load result
      leaves the current focus list as it is. */
  function ApplyLoad(current: seq<int>, loaded: seq<int>): (r: seq<int>)
    ensures |loaded| > 0 ==> r == loaded
    ensures loaded == [] ==> r == current
  {
    if |loaded| > 0 then loaded else current
  }

  /** A stored id that no card of the deck carries is dropped; when none is carried, the load
      result is empty. */
  lemma {:induction false} LoadEmptyWhenNoMatch(cards: Deck, ids: seq<string>)
    ensures LoadIndices(cards, ids) == [] <==> forall i :: !MatchesStored(cards, i, ids)
  {
    var r := LoadIndices(cards, ids);
    if r != [] {
      assert r[0] in r;
    }
  }

  // ---------------------------------------------------------------------------------------
  // Save: slot indices -> ids
  // ---------------------------------------------------------------------------------------

  /** `cards[index]?.id`: `None` when the index lies outside the deck, the slot is a hole or
      the card has no id. */
  function IdAt(cards: Deck, i: int): Option<string>
  {
    if 0 <= i < |cards| && cards[i].Some? then cards[i].value.id else None
  }

  /** The save effect's map/filter: in focus-list order, the id of each focused card, skipping
      the slots whose id is `null` or `undefined` (an empty-string id is kept). */
  function SaveIds(cards: Deck, focus: seq<int>): (r: seq<string>)
    ensures |r| <= |focus|
    ensures forall s :: s in r <==> exists i :: i in focus && IdAt(cards, i) == Some(s)
  {
    if focus == [] then []
    else
      var head := if IdAt(cards, focus[0]).Some? then [IdAt(cards, focus[0]).value] else [];
      var rest := SaveIds(cards, focus[1..]);
      assert forall i :: i in focus <==> i == focus[0] || i in focus[1..];
      head + rest
  }

  /** Saving keeps the focus-list order: focusing one more slot appends its id, if it has one,
      at the end of the saved list. */
  lemma {:induction false} SaveAppend(cards: Deck, focus: seq<int>, x: int)
    ensures SaveIds(cards, focus + [x])
         == SaveIds(cards, focus) + (if IdAt(cards, x).Some? then [IdAt(cards, x).value] else [])
  {
    if focus == [] {
      assert [x][1..] == [];
    } else {
      assert (focus + [x])[0] == focus[0];
      assert (focus + [x])[1..] == focus[1..] + [x];
      SaveAppend(cards, focus[1..], x);
    }
  }

  /** Every focused slot holds a card whose id is non-empty and carried by no other card. */
  predicate UniquelyIdentified(cards: Deck, focus: seq<int>)
  {
    forall i :: i in focus ==>
      && 0 <= i < |cards|
      && cards[i].Some?
      && Truthy(cards[i].value.id)
      && forall j :: 0 <= j < |cards| && j != i ==> IdAt(cards, j) != cards[i].value.id
  }

  /** Round trip: when each focused card is identified by its id, loading what was saved yields
      exactly the focused slots. */
  lemma LoadAfterSave(cards: Deck, focus: seq<int>)
    requires UniquelyIdentified(cards, focus)
    ensures forall i :: i in LoadIndices(cards, SaveIds(cards, focus)) <==> i in focus
  {
    var saved := SaveIds(cards, focus);
    forall i
      ensures MatchesStored(cards, i, saved) <==> i in focus
    {
      if i in focus {
        assert IdAt(cards, i) == Some(cards[i].value.id.value);
      }
      if MatchesStored(cards, i, saved) {
        var k :| k in focus && IdAt(cards, k) == Some(cards[i].value.id.value);
        assert IdAt(cards, i) == cards[i].value.id == cards[k].value.id;
        assert k == i;
      }
    }
  }

  /** The same round trip through the component's load step: the focused set comes back,
      including when nothing was focused (an empty load keeps the current list). */
  lemma SaveThenLoad(cards: Deck, focus: seq<int>)
    requires UniquelyIdentified(cards, focus)
    ensures forall i :: i in ApplyLoad(focus, LoadIndices(cards, SaveIds(cards, focus))) <==> i in focus
  {
    LoadAfterSave(cards, focus);
  }
}
