/**
 * The client's reactions to server events (`setupSocketListeners` in
 * js/socket.js) as transitions of the store, and the three emit helpers,
 * which send a request only over a connected socket and report whether
 * they did.
 */
module ClientSocket {
  import opened Wrappers
  import opened Catalog
  import opened ClientState

  /** A request the client emits to the server. */
  datatype Request =
    | CreateRoomRequest(username: string)
    | JoinRoomRequest(roomCode: string, username: string)
    | SwipeRequest(movieId: string, choice: string)

  // ----- Server events ----------------------------------------------------------

  /**
   * `connect`: after a reconnect during a running game in a known room the
   * store is kept; otherwise the client starts from an empty room state.
   */
  method OnConnect(s: Store)
    modifies s
    ensures old(s.isGameActive && s.currentRoomCode != "") ==>
              s.View() == old(s.View()).(connected := true)
    ensures !old(s.isGameActive && s.currentRoomCode != "") ==>
              s.View() == Fields(true, "", false, [], [], None, [], 0, false)
  {
    s.SetConnected(true);
    if !(s.isGameActive && s.currentRoomCode != "") {
      s.ResetRoomState();
    }
  }

  /** `disconnect`: the handler keeps the store; only the socket is no longer connected. */
  method OnDisconnect(s: Store)
    modifies s
    ensures s.View() == old(s.View()).(connected := false)
  {
    s.SetConnected(false);
  }

  /** `connect_error`: the connection is given up and the room state cleared. */
  method OnConnectError(s: Store)
    modifies s
    ensures s.View() == Fields(false, "", false, [], [], None, [], 0, false)
  {
    s.SetConnected(false);
    s.ResetRoomState();
  }

  /** `roomCreated`: remember the room and wait for a friend. */
  method OnRoomCreated(s: Store, roomCode: string)
    modifies s
    ensures s.currentRoomCode == roomCode && !s.isGameActive && !s.localUserFinishedSwiping
    ensures s.View() == old(s.View()).(currentRoomCode := roomCode, isGameActive := false,
                                       localUserFinishedSwiping := false)
  {
    s.SetRoomCode(roomCode);
    s.SetGameActive(false);
  }

  /** `joinSuccess`: remember the room and wait for the game to start. */
  method OnJoinSuccess(s: Store, roomCode: string)
    modifies s
    ensures s.currentRoomCode == roomCode && !s.isGameActive && !s.localUserFinishedSwiping
    ensures s.View() == old(s.View()).(currentRoomCode := roomCode, isGameActive := false,
                                       localUserFinishedSwiping := false)
  {
    s.SetRoomCode(roomCode);
    s.SetGameActive(false);
  }

  /** `opponentJoined`: still waiting for `startGame`. */
  method OnOpponentJoined(s: Store)
    modifies s
    ensures s.View() == old(s.View()).(isGameActive := false, localUserFinishedSwiping := false)
  {
    s.SetGameActive(false);
  }

  /**
   * `startGame`: without movies (`movies` missing or empty) the game stays
   * inactive and no cards are loaded; with movies the game becomes active,
   * the movies become the card data, the matches are cleared and the deck is
   * dealt with the first card active.
   */
  method OnStartGame(s: Store, movies: Option<seq<Movie>>)
    modifies s
    ensures (movies.None? || movies.value == []) ==>
              s.View() == old(s.View()).(isGameActive := false, localUserFinishedSwiping := false)
    ensures movies.Some? && movies.value != [] ==>
              && s.isGameActive
              && s.currentCardsData == movies.value
              && s.matches == [] && s.totalMatches == 0
              && s.deckCards == Cards(movies.value)
              && s.activeCard == First(Cards(movies.value))
              && s.Valid()
              && s.View() == old(s.View()).(isGameActive := true, currentCardsData := movies.value,
                                             matches := [], totalMatches := 0,
                                             deckCards := Cards(movies.value),
                                             activeCard := First(Cards(movies.value)))
  {
    if movies.None? || movies.value == [] {
      s.SetGameActive(false);
      return;
    }
    s.SetGameActive(true);
    s.SetCardsData(List(movies.value));
    s.ResetMatchState();
    s.RenderInitialDeck();
  }

  /**
   * `matchFound`: a match without a movie is ignored; otherwise it goes
   * through `addMatch`, so a repeated match for the same id counts once.
   */
  method OnMatchFound(s: Store, movie: Option<Movie>)
    modifies s
    ensures movie.None? ==> s.View() == old(s.View())
    ensures movie.Some? && HasMatchWithId(old(s.matches), movie.value.id) ==> s.View() == old(s.View())
    ensures s.matches == WithMatch(old(s.matches), movie)
    ensures s.totalMatches == old(s.totalMatches) + (|s.matches| - |old(s.matches)|)
    ensures s.View() == old(s.View()).(matches := s.matches, totalMatches := s.totalMatches)
    ensures old(s.Valid()) ==> s.Valid()
  {
    if movie.None? {
      return;
    }
    s.AddMatch(movie);
  }

  /** `opponentDisconnected`: back to an empty room state. */
  method OnOpponentDisconnected(s: Store)
    modifies s
    ensures s.View() == Fields(old(s.connected), "", false, [], [], None, [], 0, false)
  {
    s.ResetRoomState();
  }

  /** `gameOver`: the game ends; the collected matches are kept for the summary. */
  method OnGameOver(s: Store)
    modifies s
    ensures !s.isGameActive && !s.localUserFinishedSwiping
    ensures s.matches == old(s.matches) && s.totalMatches == old(s.totalMatches)
    ensures s.View() == old(s.View()).(isGameActive := false, localUserFinishedSwiping := false)
  {
    s.SetGameActive(false);
  }

  // ----- Requests ---------------------------------------------------------------

  /** `emitSwipe`: sent only over a connected socket while in a room. */
  method EmitSwipe(s: Store, movieId: string, choice: string) returns (sent: bool, out: seq<Request>)
    ensures sent <==> s.connected && s.currentRoomCode != ""
    ensures sent ==> out == [SwipeRequest(movieId, choice)]
    ensures !sent ==> out == []
  {
    if s.connected && s.currentRoomCode != "" {
      return true, [SwipeRequest(movieId, choice)];
    }
    return false, [];
  }

  /** `emitCreateRoom`: sent only over a connected socket. */
  method EmitCreateRoom(s: Store, username: string) returns (sent: bool, out: seq<Request>)
    ensures sent <==> s.connected
    ensures sent ==> out == [CreateRoomRequest(username)]
    ensures !sent ==> out == []
  {
    if s.connected {
      return true, [CreateRoomRequest(username)];
    }
    return false, [];
  }

  /** `emitJoinRoom`: sent only over a connected socket. */
  method EmitJoinRoom(s: Store, roomCode: string, username: string) returns (sent: bool, out: seq<Request>)
    ensures sent <==> s.connected
    ensures sent ==> out == [JoinRoomRequest(roomCode, username)]
    ensures !sent ==> out == []
  {
    if s.connected {
      return true, [JoinRoomRequest(roomCode, username)];
    }
    return false, [];
  }
}
