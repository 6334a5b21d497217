/**
 * The deck bookkeeping of `handleSwipeDecision` in js/main.js. It sends the
 * swipe through `emitSwipe` of js/socket.js, which itself reads the store,
 * so it sits in a module of its own above both.
 */
module ClientSwipe {
  import opened Wrappers
  import opened Catalog
  import opened ClientState
  import opened ClientSocket

  /** The choice a swipe direction stands for: right is a like, anything else a dislike. */
  function ChoiceFor(direction: string): (choice: string)
    ensures choice == "like" <==> direction == "right"
    ensures choice == "like" || choice == "dislike"
  {
    if direction == "right" then "like" else "dislike"
  }

  /** The guard of `handleSwipeDecision`: a card is showing, the game runs, and the user is not done. */
  predicate CanSwipe(f: Fields) {
    f.activeCard.Some? && f.isGameActive && !f.localUserFinishedSwiping
  }

  /**
   * `handleSwipeDecision`: send the active card's swipe; once it is sent,
   * drop that card from the deck, make the next card active, and mark the
   * user finished when the deck is empty. Nothing changes when the swipe is
   * not allowed or cannot be sent.
   */
  method HandleSwipeDecision(s: Store, direction: string) returns (out: seq<Request>)
    modifies s
    ensures !old(CanSwipe(s.View())) ==> out == [] && s.View() == old(s.View())
    ensures old(CanSwipe(s.View())) && !old(s.connected && s.currentRoomCode != "") ==>
              out == [] && s.View() == old(s.View())
    ensures old(CanSwipe(s.View())) && old(s.connected && s.currentRoomCode != "") ==>
              var card := old(s.activeCard.value);
              var deck := WithoutCard(old(s.deckCards), card);
              && out == [SwipeRequest(card.movieId, ChoiceFor(direction))]
              && s.View() == old(s.View()).(deckCards := deck, activeCard := First(deck),
                                             localUserFinishedSwiping := deck == [])
  {
    out := [];
    if s.activeCard.None? || !s.isGameActive || s.localUserFinishedSwiping {
      return;
    }
    var cardToRemove := s.activeCard.value;
    var swipeSent;
    swipeSent, out := EmitSwipe(s, cardToRemove.movieId, ChoiceFor(direction));
    if !swipeSent {
      return;
    }
    s.SetDeckCards(List(WithoutCard(s.deckCards, cardToRemove)));
    s.SetActiveCard(First(s.deckCards));
    if |s.deckCards| == 0 {
      s.localUserFinishedSwiping := true;
    }
  }

  /**
   * On a dealt deck whose first card is active, a sent swipe removes exactly
   * that card, the next one becomes active, and the user is finished exactly
   * when it was the last card.
   */
  lemma SwipeTakesTopCard(data: seq<Movie>)
    requires Cards(data) != []
    ensures var deck := Cards(data);
            var rest := WithoutCard(deck, deck[0]);
            && rest == deck[1..]
            && First(rest) == (if |deck| > 1 then Some(deck[1]) else None)
            && (rest == [] <==> |deck| == 1)
  {
    RenderedCardsDistinct(data);
    RemovingHeadLeavesTail(Cards(data), Cards(data)[0]);
  }
}
