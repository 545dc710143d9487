/** Question cards: each click toggles that card's `collapsed` class; cards
    form no group and do not affect one another. */
module Cards {
  import opened PageModel

  /** Click on card `i`: only its `collapsed` flag flips. */
  function ToggleCard(p: Page, i: nat): (r: Page)
    requires i < |p.cards|
    ensures |r.cards| == |p.cards|
    ensures r.cards[i] == !p.cards[i]
    ensures forall k :: 0 <= k < |p.cards| && k != i ==> r.cards[k] == p.cards[k]
    ensures r == p.(cards := r.cards)
  {
    p.(cards := p.cards[i := !p.cards[i]])
  }

  lemma ToggleCardTwiceRestores(p: Page, i: nat)
    requires i < |p.cards|
    ensures ToggleCard(ToggleCard(p, i), i) == p
  {
  }

  /** Toggles of two cards commute, and after both each card is flipped from
      where it started while every other card is untouched. */
  lemma TwoCardsToggleIndependently(p: Page, i: nat, j: nat)
    requires i < |p.cards| && j < |p.cards| && i != j
    ensures ToggleCard(ToggleCard(p, i), j) == ToggleCard(ToggleCard(p, j), i)
    ensures var r := ToggleCard(ToggleCard(p, i), j);
            r.cards[i] == !p.cards[i] && r.cards[j] == !p.cards[j]
            && forall k :: 0 <= k < |p.cards| && k != i && k != j ==> r.cards[k] == p.cards[k]
  {
  }
}
