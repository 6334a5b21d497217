/**
 * The browser client's state store (`state` in js/main.js): the room code,
 * whether a game is running, the movies of the game, the deck of card
 * elements still to swipe, the active card, and the matches collected so far.
 * Every setter and reset is a method of `Store` that reassigns its fields.
 *
 * Card elements are identified by the position (`slot`) of the movie they
 * were made from in `currentCardsData`, which is what their DOM identity
 * amounts to: `renderInitialDeck` makes one element per movie.
 */
module ClientState {
  import opened Wrappers
  import opened Catalog

  /** A card element of the deck and the `data-movie-id` it carries. */
  datatype Card = Card(slot: nat, movieId: string)

  /** A setter's argument: an array, or anything else (`data && Array.isArray(data)` fails). */
  datatype JsList<T> = List(items: seq<T>) | NotList

  /** The whole store as one value, to state what a setter changes and what it keeps. */
  datatype Fields = Fields(
    connected: bool,
    currentRoomCode: string,
    isGameActive: bool,
    currentCardsData: seq<Movie>,
    deckCards: seq<Card>,
    activeCard: Option<Card>,
    matches: seq<Movie>,
    totalMatches: int,
    localUserFinishedSwiping: bool)

  // ----- The pure parts of the setters ---------------------------------------

  /** `matches.some(m => m.id === id)` */
  function HasMatchWithId(matches: seq<Movie>, id: string): (r: bool)
    ensures r <==> exists i :: 0 <= i < |matches| && matches[i].id == id
  {
    if matches == [] then false
    else if matches[0].id == id then true
    else
      var r := HasMatchWithId(matches[1..], id);
      assert forall i :: 1 <= i < |matches| ==> matches[i] == matches[1..][i - 1];
      r
  }

  /** No two stored matches share an id. */
  predicate DistinctIds(matches: seq<Movie>) {
    forall i, j :: 0 <= i < j < |matches| ==> matches[i].id != matches[j].id
  }

  /**
   * What `addMatch` makes of the match list: a movie with an id is appended
   * unless a stored match already has that id; anything else is ignored.
   */
  function WithMatch(matches: seq<Movie>, movie: Option<Movie>): seq<Movie> {
    if movie.None? || movie.value.id == "" || HasMatchWithId(matches, movie.value.id) then matches
    else matches + [movie.value]
  }

  /**
   * `addMatch` ignores a missing movie or one without an id, appends a movie
   * exactly when no stored match has its id, and otherwise keeps the list.
   */
  lemma AddMatchMeaning(matches: seq<Movie>, movie: Option<Movie>)
    ensures movie.None? || movie.value.id == "" ==> WithMatch(matches, movie) == matches
    ensures movie.Some? ==>
              (WithMatch(matches, movie) == matches + [movie.value] <==>
                 movie.value.id != "" && forall i :: 0 <= i < |matches| ==> matches[i].id != movie.value.id)
    ensures WithMatch(matches, movie) == matches || WithMatch(matches, movie) == matches + [movie.value]
  {
    if movie.Some? && WithMatch(matches, movie) == matches + [movie.value] {
      assert |WithMatch(matches, movie)| == |matches| + 1;
    }
  }

  /**
   * `addMatch` keeps the stored ids pairwise distinct, and the movie it was
   * given is stored afterwards if it has an id.
   */
  lemma AddMatchKeepsIdsDistinct(matches: seq<Movie>, movie: Option<Movie>)
    requires DistinctIds(matches)
    ensures var r := WithMatch(matches, movie);
            && DistinctIds(r)
            && (movie.Some? && movie.value.id != "" ==> HasMatchWithId(r, movie.value.id))
  {
    var r := WithMatch(matches, movie);
    if r != matches {
      forall i, j | 0 <= i < j < |r| ensures r[i].id != r[j].id {
        if j == |matches| {
          assert r[i] == matches[i];
        }
      }
      assert r[|matches|] == movie.value;
    }
  }

  /** A repeated `addMatch` of the same movie changes nothing more. */
  lemma AddMatchIdempotent(matches: seq<Movie>, movie: Option<Movie>)
    ensures WithMatch(WithMatch(matches, movie), movie) == WithMatch(matches, movie)
  {
    var r := WithMatch(matches, movie);
    if r != matches {
      assert r[|matches|] == movie.value;
    }
  }

  /** `deckCards.filter(card => card !== cardToRemove)` */
  function WithoutCard(deck: seq<Card>, card: Card): (r: seq<Card>)
    ensures forall c :: c in r <==> c in deck && c != card
    ensures |r| <= |deck|
  {
    if deck == [] then []
    else if deck[0] == card then WithoutCard(deck[1..], card)
    else [deck[0]] + WithoutCard(deck[1..], card)
  }

  /** Every card of the deck occurs once. */
  predicate DistinctCards(deck: seq<Card>) {
    forall i, j :: 0 <= i < j < |deck| ==> deck[i] != deck[j]
  }

  /**
   * Removing the active card, which heads a deck of distinct cards, leaves
   * exactly the cards behind it, in order.
   */
  lemma {:induction false} RemovingHeadLeavesTail(deck: seq<Card>, card: Card)
    requires deck != [] && deck[0] == card && DistinctCards(deck)
    ensures WithoutCard(deck, card) == deck[1..]
  {
    NotInKeepsDeck(deck[1..], card);
  }

  /** Filtering out a card that is not in the deck keeps the deck. */
  lemma {:induction false} NotInKeepsDeck(deck: seq<Card>, card: Card)
    requires card !in deck
    ensures WithoutCard(deck, card) == deck
  {
    if deck != [] {
      assert deck[0] != card;
      assert card !in deck[1..];
      NotInKeepsDeck(deck[1..], card);
    }
  }

  /**
   * `currentCardsData.map(createCardElement).filter(card => card !== null)`
   * from position `from` on: an element for every movie that has an id, in
   * order.
   */
  function CardsFrom(data: seq<Movie>, from: nat): (cards: seq<Card>)
    requires from <= |data|
    ensures forall k :: 0 <= k < |cards| ==>
              from <= cards[k].slot < |data| && data[cards[k].slot].id != ""
              && cards[k].movieId == data[cards[k].slot].id
    ensures forall k, l :: 0 <= k < l < |cards| ==> cards[k].slot < cards[l].slot
    ensures forall i :: from <= i < |data| && data[i].id != "" ==> Card(i, data[i].id) in cards
    decreases |data| - from
  {
    if from == |data| then []
    else
      var rest := CardsFrom(data, from + 1);
      if data[from].id == "" then rest
      else
        var cards := [Card(from, data[from].id)] + rest;
        assert forall k :: 1 <= k < |cards| ==> cards[k] == rest[k - 1];
        assert cards[0].slot == from;
        cards
  }

  /** The card elements `renderInitialDeck` makes for the current movies. */
  function Cards(data: seq<Movie>): seq<Card> {
    CardsFrom(data, 0)
  }

  /** The deck is made of distinct cards, so a swipe removes exactly one. */
  lemma RenderedCardsDistinct(data: seq<Movie>)
    ensures DistinctCards(Cards(data))
  {
    var cards := Cards(data);
    forall i, j | 0 <= i < j < |cards| ensures cards[i] != cards[j] {
      assert cards[i].slot < cards[j].slot;
    }
  }

  /** `.reverse()` on a copy of an array. */
  function Reverse<T>(s: seq<T>): (r: seq<T>)
    ensures |r| == |s|
    ensures forall i :: 0 <= i < |s| ==> r[i] == s[|s| - 1 - i]
  {
    if s == [] then [] else Reverse(s[1..]) + [s[0]]
  }

  /**
   * The deck is stacked in reverse for the DOM and reversed back for the
   * state, so the state's deck keeps the movies' order.
   */
  lemma ReverseTwice<T>(s: seq<T>)
    ensures Reverse(Reverse(s)) == s
  {
    var r := Reverse(Reverse(s));
    assert forall i :: 0 <= i < |s| ==> r[i] == s[i];
  }

  /** `deckCards[0] || null` */
  function First(deck: seq<Card>): (card: Option<Card>)
    ensures card.Some? <==> deck != []
    ensures card.Some? ==> card.value == deck[0]
  {
    if deck == [] then None else Some(deck[0])
  }

  // ----- The store ------------------------------------------------------------

  class Store {
    /** `state.socket && state.socket.connected` */
    var connected: bool
    /** `state.currentRoomCode`; the empty string stands for `null`. */
    var currentRoomCode: string
    var isGameActive: bool
    var currentCardsData: seq<Movie>
    var deckCards: seq<Card>
    /** `state.activeCardElement` */
    var activeCard: Option<Card>
    var matches: seq<Movie>
    var totalMatches: int
    var localUserFinishedSwiping: bool

    function View(): Fields
      reads this
    {
      Fields(connected, currentRoomCode, isGameActive, currentCardsData, deckCards, activeCard,
           matches, totalMatches, localUserFinishedSwiping)
    }

    /** The match counter counts the stored matches, whose ids are distinct. */
    ghost predicate Valid()
      reads this
    {
      totalMatches == |matches| && DistinctIds(matches)
    }

    /** The store as js/main.js initialises it, before any socket exists. */
    constructor ()
      ensures View() == Fields(false, "", false, [], [], None, [], 0, false)
      ensures Valid()
    {
      connected := false;
      currentRoomCode := "";
      isGameActive := false;
      currentCardsData := [];
      deckCards := [];
      activeCard := None;
      matches := [];
      totalMatches := 0;
      localUserFinishedSwiping := false;
    }

    /** The Socket.IO client's own `connected` flag changing (not a setter of js/main.js). */
    method SetConnected(c: bool)
      modifies this
      ensures View() == old(View()).(connected := c)
    {
      connected := c;
    }

    /** `setRoomCode` */
    method SetRoomCode(code: string)
      modifies this
      ensures View() == old(View()).(currentRoomCode := code)
    {
      currentRoomCode := code;
    }

    /** `setGameActive`: ending the game also clears the local "finished" flag. */
    method SetGameActive(active: bool)
      modifies this
      ensures isGameActive == active
      ensures !active ==> !localUserFinishedSwiping
      ensures active ==> localUserFinishedSwiping == old(localUserFinishedSwiping)
      ensures View() == old(View()).(isGameActive := active, localUserFinishedSwiping := localUserFinishedSwiping)
    {
      isGameActive := active;
      if !active {
        localUserFinishedSwiping := false;
      }
    }

    /** `setCardsData`: a copy of an array, the empty list for anything else. */
    method SetCardsData(data: JsList<Movie>)
      modifies this
      ensures data.List? ==> currentCardsData == data.items
      ensures data.NotList? ==> currentCardsData == []
      ensures View() == old(View()).(currentCardsData := currentCardsData)
    {
      currentCardsData := if data.List? then data.items else [];
    }

    /** `setDeckCards`: a copy of an array, the empty list for anything else. */
    method SetDeckCards(cards: JsList<Card>)
      modifies this
      ensures cards.List? ==> deckCards == cards.items
      ensures cards.NotList? ==> deckCards == []
      ensures View() == old(View()).(deckCards := deckCards)
    {
      deckCards := if cards.List? then cards.items else [];
    }

    /** `setActiveCard` */
    method SetActiveCard(card: Option<Card>)
      modifies this
      ensures View() == old(View()).(activeCard := card)
    {
      activeCard := card;
    }

    /**
     * `addMatch`: store a movie that has an id unless a match with that id is
     * already stored, counting it; keeps the counter equal to the number of
     * distinct matches.
     */
    method AddMatch(movie: Option<Movie>)
      modifies this
      ensures matches == WithMatch(old(matches), movie)
      ensures totalMatches == old(totalMatches) + (|matches| - |old(matches)|)
      ensures View() == old(View()).(matches := matches, totalMatches := totalMatches)
      ensures old(Valid()) ==> Valid()
    {
      if movie.None? || movie.value.id == "" {
        return;
      }
      if !HasMatchWithId(matches, movie.value.id) {
        if Valid() {
          AddMatchKeepsIdsDistinct(matches, Some(movie.value));
        }
        matches := matches + [movie.value];
        totalMatches := totalMatches + 1;
      }
    }

    /** `resetMatchState` */
    method ResetMatchState()
      modifies this
      ensures View() == old(View()).(matches := [], totalMatches := 0)
      ensures Valid()
    {
      matches := [];
      totalMatches := 0;
    }

    /** `resetDeckState` */
    method ResetDeckState()
      modifies this
      ensures View() == old(View()).(currentCardsData := [], deckCards := [], activeCard := None,
                                     localUserFinishedSwiping := false)
    {
      currentCardsData := [];
      deckCards := [];
      activeCard := None;
      localUserFinishedSwiping := false;
    }

    /** `resetGameState`: the deck, the matches and the game flag. */
    method ResetGameState()
      modifies this
      ensures View() == old(View()).(currentCardsData := [], deckCards := [], activeCard := None,
                                     localUserFinishedSwiping := false, matches := [],
                                     totalMatches := 0, isGameActive := false)
      ensures Valid()
    {
      ResetDeckState();
      ResetMatchState();
      isGameActive := false;
    }

    /** `resetRoomState`: everything but the connection, back to the initial store. */
    method ResetRoomState()
      modifies this
      ensures View() == Fields(old(connected), "", false, [], [], None, [], 0, false)
      ensures Valid()
    {
      ResetGameState();
      currentRoomCode := "";
    }

    /**
     * The state part of `renderInitialDeck`: one card element per movie that
     * has an id, in the movies' order, the first of them active. With no
     * movies the deck is emptied and the active card is left as it was.
     */
    method RenderInitialDeck()
      modifies this
      ensures currentCardsData == [] ==> View() == old(View()).(deckCards := [])
      ensures currentCardsData != [] ==>
                View() == old(View()).(deckCards := Cards(currentCardsData),
                                       activeCard := First(Cards(currentCardsData)))
    {
      SetDeckCards(List([]));
      if currentCardsData == [] {
        return;
      }
      var stacked := Reverse(Cards(currentCardsData));
      ReverseTwice(Cards(currentCardsData));
      SetDeckCards(List(Reverse(stacked)));
      SetActiveCard(First(deckCards));
    }
  }
}
